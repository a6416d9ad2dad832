/** What grafting guarantees: success condition, round trip with a frame, layout, and compositionality. */
module GraftTheorems {
  import opened Arithmetic
  import opened Bytes
  import opened Wrappers
  import opened Alignment
  import opened PeImage
  import opened Graft

  // ---- The layout functions grow ----

  lemma {:induction false} FileEndGrows(len: nat, ss: seq<Section>, m: nat, n: nat, fileAlign: nat)
    requires IsPow2(fileAlign) && m <= n <= |ss|
    ensures FileEnd(len, ss, m, fileAlign) <= FileEnd(len, ss, n, fileAlign)
    ensures m < n ==> AlignUp(FileEnd(len, ss, m, fileAlign), fileAlign) + AlignUp(|ss[m].data|, fileAlign)
                      <= FileEnd(len, ss, n, fileAlign)
    decreases n
  {
    if m < n {
      AlignUpIsLeastMultiple(FileEnd(len, ss, n - 1, fileAlign), fileAlign);
      AlignUpIsLeastMultiple(FileEnd(len, ss, m, fileAlign), fileAlign);
      if m < n - 1 {
        FileEndGrows(len, ss, m, n - 1, fileAlign);
      }
    }
  }

  lemma {:induction false} EndVmaGrows(vma: nat, ss: seq<Section>, m: nat, n: nat, sectionAlign: nat)
    requires IsPow2(sectionAlign) && vma % sectionAlign == 0 && m <= n <= |ss|
    ensures EndVma(vma, ss, m, sectionAlign) <= EndVma(vma, ss, n, sectionAlign)
    ensures EndVma(vma, ss, n, sectionAlign) % sectionAlign == 0
    ensures m < n ==> EndVma(vma, ss, m, sectionAlign) + AlignUp(|ss[m].data|, sectionAlign)
                      <= EndVma(vma, ss, n, sectionAlign)
    decreases n
  {
    if n > 0 {
      var before := EndVma(vma, ss, n - 1, sectionAlign);
      AlignUpIsLeastMultiple(before + |ss[n - 1].data|, sectionAlign);
      EndVmaGrows(vma, ss, if m < n then m else n - 1, n - 1, sectionAlign);
      AlignUpOffset(before, |ss[n - 1].data|, sectionAlign);
    }
  }

  // ---- When grafting succeeds ----

  predicate Fits(stub: Bytes, pe: PeView, ss: seq<Section>)
    requires TableEnd(pe) <= |stub|
  {
    && Slot(pe, pe.numSections + |ss|) <= HeaderCeiling(stub, pe)
    && NamesFit(ss)
    && pe.numSections + |ss| <= U16_MAX
    && FileEnd(|stub|, ss, |ss|, pe.fileAlign) <= U32_MAX
  }

  /** The part of well-formedness and fitting that the byte-level lemmas need. */
  predicate Laid(len: nat, pe: PeView, ss: seq<Section>) {
    && IsPow2(pe.fileAlign) && IsPow2(pe.sectionAlign) && pe.fileAlign <= pe.sectionAlign
    && pe.peOff + 24 == pe.optOff && pe.optOff + 112 <= pe.sectTable
    && Slot(pe, pe.numSections + |ss|) <= len
    && NamesFit(ss)
    && pe.numSections + |ss| <= U16_MAX
    && len <= FileEnd(len, ss, |ss|, pe.fileAlign) <= U32_MAX
  }

  function FinalVma(stub: Bytes, pe: PeView, ss: seq<Section>): nat
    requires TableEnd(pe) <= |stub|
  {
    EndVma(FirstVma(stub, pe), ss, |ss|, pe.sectionAlign)
  }

  /** The image of a successful graft whose addresses start at `vma`. */
  function Image(stub: Bytes, pe: PeView, ss: seq<Section>, vma: nat): (r: Bytes)
    requires Laid(|stub|, pe, ss)
    ensures |r| == FileEnd(|stub|, ss, |ss|, pe.fileAlign)
  {
    PatchFields(WithHeaders(stub, pe, ss, vma), pe, pe.numSections + |ss|, EndVma(vma, ss, |ss|, pe.sectionAlign))
  }

  /** On a well-formed stub the four documented limits are the only ways to fail; no slice panics. */
  lemma GraftSucceedsIff(stub: Bytes, ss: seq<Section>)
    requires WellFormedStub(stub)
    ensures Grafted(stub, ss).Ok? <==> Fits(stub, Parse(stub).value, ss)
    ensures Grafted(stub, ss) != Err(OutOfBounds)
    ensures Grafted(stub, ss).Ok? ==>
      var pe := Parse(stub).value;
      Laid(|stub|, pe, ss) && Grafted(stub, ss).value == Image(stub, pe, ss, FirstVma(stub, pe))
  {
    var pe := Parse(stub).value;
    FileEndGrows(|stub|, ss, 0, |ss|, pe.fileAlign);
  }

  // ---- The image, byte by byte ----

  lemma {:induction false} PatchFrame(b: Bytes, pe: PeView, count: nat, vma: nat)
    requires pe.peOff + 24 == pe.optOff && pe.optOff + 68 <= |b|
    ensures var r := PatchFields(b, pe, count, vma);
      && (forall k :: 0 <= k < |b| && !IsPatched(pe, k) ==> r[k] == b[k])
      && (forall k :: pe.peOff + 6 <= k < pe.peOff + 8 ==> r[k] == Digit(count, k - (pe.peOff + 6)))
      && (forall k :: pe.optOff + 56 <= k < pe.optOff + 60 ==> r[k] == Digit(vma, k - (pe.optOff + 56)))
      && (forall k :: pe.optOff + 64 <= k < pe.optOff + 68 ==> r[k] == Digit(0, k - (pe.optOff + 64)))
  {
    PatchFieldsUnfolds(b, pe, count, vma);
    var b1 := WriteAt(b, pe.peOff + 6, Le16(count));
    WriteAtIndex(b, pe.peOff + 6, Le16(count));
    var b2 := WriteAt(b1, pe.optOff + 56, Le32(vma));
    WriteAtIndex(b1, pe.optOff + 56, Le32(vma));
    WriteAtIndex(b2, pe.optOff + 64, Le32(0));
  }

  /** `v as u32` */
  function Low32(v: nat): nat {
    v % 0x1_0000_0000
  }

  /** The three patched fields read back as what was written. */
  lemma PatchedFields(b: Bytes, pe: PeView, count: nat, vma: nat)
    requires pe.peOff + 24 == pe.optOff && pe.optOff + 68 <= |b| && count <= U16_MAX
    ensures var r := PatchFields(b, pe, count, vma);
      && Rd16(r, pe.peOff + 6) == count
      && Rd32(r, pe.optOff + 56) == Low32(vma) && (vma <= U32_MAX ==> Low32(vma) == vma)
      && Rd32(r, pe.optOff + 64) == 0
  {
    PatchFrame(b, pe, count, vma);
    Pow256Of4();
    var r := PatchFields(b, pe, count, vma);
    LeRoundTrip(count, r, pe.peOff + 6, 2);
    LeRoundTrip(vma, r, pe.optOff + 56, 4);
    LeRoundTrip(0, r, pe.optOff + 64, 4);
  }

  lemma {:induction false} TableIndex(hs: seq<Bytes>, n: nat, i: nat, t: nat)
    requires AllHeaders(hs) && i < n <= |hs| && t < HEADER_SIZE
    ensures 40 * i + t < |Table(hs, n)| && Table(hs, n)[40 * i + t] == hs[i][t]
  {
    if i < n - 1 {
      TableIndex(hs, n - 1, i, t);
    }
  }

  predicate InNewSlots(pe: PeView, ss: seq<Section>, k: nat) {
    TableEnd(pe) <= k < Slot(pe, pe.numSections + |ss|)
  }

  /** Outside the new slots the headers change nothing. */
  lemma {:induction false} HeadersFrame(stub: Bytes, pe: PeView, ss: seq<Section>, vma: nat)
    requires Laid(|stub|, pe, ss)
    ensures forall k :: 0 <= k < FileEnd(|stub|, ss, |ss|, pe.fileAlign) && !InNewSlots(pe, ss, k) ==>
      WithHeaders(stub, pe, ss, vma)[k] == PaddedTo(stub, ss, |ss|, pe.fileAlign)[k]
  {
    if ss != [] {
      var table := Table(HeadersOf(|stub|, vma, ss, pe.fileAlign, pe.sectionAlign), |ss|);
      WriteAtIndex(PaddedTo(stub, ss, |ss|, pe.fileAlign), TableEnd(pe), table);
    }
  }

  /** Byte `t` of the `i`-th new slot is byte `t` of the `i`-th header. */
  lemma SlotByte(stub: Bytes, pe: PeView, ss: seq<Section>, vma: nat, i: nat, t: nat)
    requires Laid(|stub|, pe, ss) && i < |ss| && t < HEADER_SIZE
    ensures |ss[i].name| <= 8
    ensures WithHeaders(stub, pe, ss, vma)[Slot(pe, pe.numSections + i) + t]
      == HeaderBytes(PlaceAt(|stub|, vma, ss, i, pe.fileAlign, pe.sectionAlign))[t]
  {
    var hs := HeadersOf(|stub|, vma, ss, pe.fileAlign, pe.sectionAlign);
    var padded := PaddedTo(stub, ss, |ss|, pe.fileAlign);
    TableIndex(hs, |ss|, i, t);
    WriteAtIndex(padded, TableEnd(pe), Table(hs, |ss|));
    var k := Slot(pe, pe.numSections + i) + t;
    assert k == TableEnd(pe) + (40 * i + t);
  }

  /** The headers lie between the patched fields and the end of the stub. */
  lemma ImageSlots(stub: Bytes, pe: PeView, ss: seq<Section>, vma: nat, i: nat)
    requires Laid(|stub|, pe, ss) && i < |ss|
    ensures |ss[i].name| <= 8
    ensures var sh := Slot(pe, pe.numSections + i);
      && sh + HEADER_SIZE <= |stub|
      && forall t :: sh <= t < sh + HEADER_SIZE ==>
        Image(stub, pe, ss, vma)[t] == HeaderBytes(PlaceAt(|stub|, vma, ss, i, pe.fileAlign, pe.sectionAlign))[t - sh]
  {
    var sh := Slot(pe, pe.numSections + i);
    PatchFrame(WithHeaders(stub, pe, ss, vma), pe, pe.numSections + |ss|, EndVma(vma, ss, |ss|, pe.sectionAlign));
    forall t | sh <= t < sh + HEADER_SIZE
      ensures Image(stub, pe, ss, vma)[t]
        == HeaderBytes(PlaceAt(|stub|, vma, ss, i, pe.fileAlign, pe.sectionAlign))[t - sh]
    {
      SlotByte(stub, pe, ss, vma, i, t - sh);
    }
  }

  /** Everywhere else the image is the padded file. */
  lemma {:induction false} ImageFrame(stub: Bytes, pe: PeView, ss: seq<Section>, vma: nat)
    requires Laid(|stub|, pe, ss)
    ensures forall k | 0 <= k < FileEnd(|stub|, ss, |ss|, pe.fileAlign) ::
      !IsPatched(pe, k) && !InNewSlots(pe, ss, k) ==>
        Image(stub, pe, ss, vma)[k] == PaddedTo(stub, ss, |ss|, pe.fileAlign)[k]
  {
    HeadersFrame(stub, pe, ss, vma);
    PatchFrame(WithHeaders(stub, pe, ss, vma), pe, pe.numSections + |ss|, EndVma(vma, ss, |ss|, pe.sectionAlign));
  }

  // ---- The padded file ----

  /** Appending a section keeps what was there and puts its data at the aligned offset. */
  lemma {:induction false} PaddedIndex(out: Bytes, data: Bytes, fileAlign: nat)
    requires IsPow2(fileAlign)
    ensures var r, p := Padded(out, data, fileAlign), AlignUp(|out|, fileAlign);
      && |out| <= p && p + |data| <= |r|
      && (forall k :: 0 <= k < |out| ==> r[k] == out[k])
      && (forall k :: p <= k < p + |data| ==> r[k] == data[k - p])
  {
    AlignUpIsLeastMultiple(|out|, fileAlign);
    AlignUpIsLeastMultiple(|data|, fileAlign);
  }

  /** What is appended around the data is zero. */
  lemma {:induction false} PaddedZeros(out: Bytes, data: Bytes, fileAlign: nat)
    requires IsPow2(fileAlign)
    ensures var r, p := Padded(out, data, fileAlign), AlignUp(|out|, fileAlign);
      && |out| <= p && p + |data| <= |r|
      && (forall k :: |out| <= k < p ==> r[k] == 0)
      && (forall k :: p + |data| <= k < |r| ==> r[k] == 0)
  {
    AlignUpIsLeastMultiple(|out|, fileAlign);
    AlignUpIsLeastMultiple(|data|, fileAlign);
  }

  lemma {:induction false} PaddedToKeeps(out: Bytes, ss: seq<Section>, m: nat, n: nat, fileAlign: nat, k: nat)
    requires IsPow2(fileAlign) && m <= n <= |ss| && k < FileEnd(|out|, ss, m, fileAlign)
    ensures k < FileEnd(|out|, ss, n, fileAlign)
    ensures PaddedTo(out, ss, n, fileAlign)[k] == PaddedTo(out, ss, m, fileAlign)[k]
    decreases n
  {
    if m < n {
      assert PaddedTo(out, ss, n, fileAlign) == PaddedStep(out, ss, n, fileAlign);
      PaddedToKeeps(out, ss, m, n - 1, fileAlign, k);
      PaddedIndex(PaddedTo(out, ss, n - 1, fileAlign), ss[n - 1].data, fileAlign);
    }
  }

  /** The raw data of section `i` stands at its raw pointer. */
  lemma PaddedToData(out: Bytes, ss: seq<Section>, i: nat, n: nat, fileAlign: nat, t: nat)
    requires IsPow2(fileAlign) && i < n <= |ss| && t < |ss[i].data|
    ensures var p := AlignUp(FileEnd(|out|, ss, i, fileAlign), fileAlign);
      && p + t < FileEnd(|out|, ss, n, fileAlign)
      && PaddedTo(out, ss, n, fileAlign)[p + t] == ss[i].data[t]
  {
    var p := AlignUp(FileEnd(|out|, ss, i, fileAlign), fileAlign);
    PaddedIndex(PaddedTo(out, ss, i, fileAlign), ss[i].data, fileAlign);
    assert PaddedTo(out, ss, i + 1, fileAlign) == PaddedStep(out, ss, i + 1, fileAlign);
    assert PaddedTo(out, ss, i + 1, fileAlign)[p + t] == ss[i].data[t];
    PaddedToKeeps(out, ss, i + 1, n, fileAlign, p + t);
  }

  /** The bytes around the raw data of section `i` are zero. */
  lemma PaddedToZero(out: Bytes, ss: seq<Section>, i: nat, n: nat, fileAlign: nat, k: nat)
    requires IsPow2(fileAlign) && i < n <= |ss|
    requires var p := AlignUp(FileEnd(|out|, ss, i, fileAlign), fileAlign);
      || FileEnd(|out|, ss, i, fileAlign) <= k < p
      || p + |ss[i].data| <= k < FileEnd(|out|, ss, i + 1, fileAlign)
    ensures k < FileEnd(|out|, ss, n, fileAlign) && PaddedTo(out, ss, n, fileAlign)[k] == 0
  {
    PaddedZeros(PaddedTo(out, ss, i, fileAlign), ss[i].data, fileAlign);
    assert PaddedTo(out, ss, i + 1, fileAlign) == PaddedStep(out, ss, i + 1, fileAlign);
    PaddedToKeeps(out, ss, i + 1, n, fileAlign, k);
  }

  // ---- Round trip ----

  /** Behind the file pointer: no relocations or line numbers, and initialised data that may be read. */
  lemma HeaderTail(p: Placement)
    requires |p.name| <= 8
    ensures forall j :: 24 <= j < 36 ==> HeaderBytes(p)[j] == 0
    ensures HeaderBytes(p)[36] == 0x40 && HeaderBytes(p)[37] == 0 && HeaderBytes(p)[38] == 0
    ensures HeaderBytes(p)[39] == 0x40
  {
    HeaderUnfolds(p);
    TailDigits();
  }

  lemma TailDigits()
    ensures Digit(CHARACTERISTICS, 0) == 0x40 && Digit(CHARACTERISTICS, 1) == 0
    ensures Digit(CHARACTERISTICS, 2) == 0 && Digit(CHARACTERISTICS, 3) == 0x40
  {
    assert CHARACTERISTICS / 256 == 0x40_0000;
    assert Digit(0x40_0000, 0) == 0;
    assert Digit(0x40_0000, 1) == Digit(0x4000, 0) == 0;
    assert Digit(0x4000, 1) == Digit(0x40, 0) == 0x40;
    assert Digit(0x40_0000, 2) == Digit(0x4000, 1);
  }

  lemma HeaderBytesIndex(p: Placement)
    requires |p.name| <= 8
    ensures forall j :: 0 <= j < 8 ==> HeaderBytes(p)[j] == if j < |p.name| then p.name[j] else 0
    ensures forall j :: 8 <= j < 12 ==> HeaderBytes(p)[j] == Digit(p.size, j - 8)
    ensures forall j :: 12 <= j < 16 ==> HeaderBytes(p)[j] == Digit(p.vma, j - 12)
    ensures forall j :: 16 <= j < 20 ==> HeaderBytes(p)[j] == Digit(p.rawSize, j - 16)
    ensures forall j :: 20 <= j < 24 ==> HeaderBytes(p)[j] == Digit(p.rawPtr, j - 20)
  {
    HeaderUnfolds(p);
  }

  /** A header reads back as the placement it was filled from, when the values fit their fields. */
  lemma HeaderRoundTrip(b: Bytes, sh: nat, p: Placement)
    requires |p.name| <= 8 && sh + HEADER_SIZE <= |b|
    requires forall t :: sh <= t < sh + HEADER_SIZE ==> b[t] == HeaderBytes(p)[t - sh]
    ensures forall j :: sh <= j < sh + 8 ==> b[j] == if j - sh < |p.name| then p.name[j - sh] else 0
    ensures p.size <= U32_MAX ==> VirtualSize(b, sh) == p.size
    ensures VirtualAddress(b, sh) == Low32(p.vma) && (p.vma <= U32_MAX ==> Low32(p.vma) == p.vma)
    ensures p.rawSize <= U32_MAX ==> RawSize(b, sh) == p.rawSize
    ensures p.rawPtr <= U32_MAX ==> RawPointer(b, sh) == p.rawPtr
  {
    HeaderBytesIndex(p);
    Pow256Of4();
    LeRoundTrip(p.size, b, sh + 8, 4);
    LeRoundTrip(p.vma, b, sh + 12, 4);
    LeRoundTrip(p.rawSize, b, sh + 16, 4);
    LeRoundTrip(p.rawPtr, b, sh + 20, 4);
  }

  /** The header at `sh` names section `s`, and its pointer and size cut exactly `s.data` out of the file. */
  predicate Carries(b: Bytes, sh: nat, s: Section) {
    && sh + HEADER_SIZE <= |b|
    && |s.name| <= 8
    && (forall j :: sh <= j < sh + 8 ==> b[j] == if j - sh < |s.name| then s.name[j - sh] else 0)
    && VirtualSize(b, sh) == |s.data| <= RawSize(b, sh)
    && RawPointer(b, sh) + RawSize(b, sh) <= |b|
    && (forall t :: 0 <= t < |s.data| ==> b[RawPointer(b, sh) + t] == s.data[t])
  }

  lemma {:induction false} PlacementBounds(stub: Bytes, pe: PeView, ss: seq<Section>, vma: nat, i: nat)
    requires Laid(|stub|, pe, ss) && i < |ss|
    ensures var p := PlaceAt(|stub|, vma, ss, i, pe.fileAlign, pe.sectionAlign);
      && |stub| <= p.rawPtr && p.size <= p.rawSize
      && p.rawPtr + p.rawSize <= FileEnd(|stub|, ss, |ss|, pe.fileAlign)
      && p.rawPtr % pe.fileAlign == 0 && p.rawSize % pe.fileAlign == 0
  {
    FileEndGrows(|stub|, ss, i, |ss|, pe.fileAlign);
    FileEndGrows(|stub|, ss, 0, i, pe.fileAlign);
    AlignUpIsLeastMultiple(FileEnd(|stub|, ss, i, pe.fileAlign), pe.fileAlign);
    AlignUpIsLeastMultiple(|ss[i].data|, pe.fileAlign);
  }

  lemma ImageFields(stub: Bytes, pe: PeView, ss: seq<Section>, vma: nat, i: nat)
    requires Laid(|stub|, pe, ss) && i < |ss|
    ensures var p := PlaceAt(|stub|, vma, ss, i, pe.fileAlign, pe.sectionAlign);
      var out, sh := Image(stub, pe, ss, vma), Slot(pe, pe.numSections + i);
      && sh + HEADER_SIZE <= |stub| && |p.name| <= 8
      && (forall j :: sh <= j < sh + 8 ==> out[j] == if j - sh < |p.name| then p.name[j - sh] else 0)
      && VirtualSize(out, sh) == p.size && RawPointer(out, sh) == p.rawPtr && RawSize(out, sh) == p.rawSize
      && VirtualAddress(out, sh) == Low32(p.vma) && (p.vma <= U32_MAX ==> Low32(p.vma) == p.vma)
  {
    ImageSlots(stub, pe, ss, vma, i);
    PlacementBounds(stub, pe, ss, vma, i);
    HeaderRoundTrip(Image(stub, pe, ss, vma), Slot(pe, pe.numSections + i),
                    PlaceAt(|stub|, vma, ss, i, pe.fileAlign, pe.sectionAlign));
  }

  lemma ImageCarries(stub: Bytes, pe: PeView, ss: seq<Section>, vma: nat, i: nat)
    requires Laid(|stub|, pe, ss) && i < |ss|
    ensures Carries(Image(stub, pe, ss, vma), Slot(pe, pe.numSections + i), ss[i])
  {
    var out := Image(stub, pe, ss, vma);
    var p := PlaceAt(|stub|, vma, ss, i, pe.fileAlign, pe.sectionAlign);
    ImageFields(stub, pe, ss, vma, i);
    PlacementBounds(stub, pe, ss, vma, i);
    ImageFrame(stub, pe, ss, vma);
    forall t | 0 <= t < |ss[i].data|
      ensures out[p.rawPtr + t] == ss[i].data[t]
    {
      PaddedToData(stub, ss, i, |ss|, pe.fileAlign, t);
    }
  }

  /** Every byte of the stub outside the patched fields and the new slots is unchanged. */
  lemma StubKept(stub: Bytes, pe: PeView, ss: seq<Section>, vma: nat)
    requires Laid(|stub|, pe, ss)
    ensures forall k :: 0 <= k < |stub| && !IsPatched(pe, k) && !InNewSlots(pe, ss, k) ==>
      Image(stub, pe, ss, vma)[k] == stub[k]
  {
    ImageFrame(stub, pe, ss, vma);
    forall k | 0 <= k < |stub| && !IsPatched(pe, k) && !InNewSlots(pe, ss, k)
      ensures Image(stub, pe, ss, vma)[k] == stub[k]
    {
      PaddedToKeeps(stub, ss, 0, |ss|, pe.fileAlign, k);
    }
  }

  lemma Reparses(stub: Bytes, pe: PeView, ss: seq<Section>, vma: nat)
    requires Parse(stub) == Ok(pe) && pe.peOff >= 0x40 && Laid(|stub|, pe, ss)
    ensures Parse(Image(stub, pe, ss, vma)) == Ok(pe.(numSections := pe.numSections + |ss|))
  {
    var out := Image(stub, pe, ss, vma);
    StubKept(stub, pe, ss, vma);
    PatchedFields(WithHeaders(stub, pe, ss, vma), pe, pe.numSections + |ss|, EndVma(vma, ss, |ss|, pe.sectionAlign));
    assert AgreeBelow(stub, out, pe, pe.sectTable);
    ParseFrame(stub, out, pe.numSections + |ss|);
  }

  /**
    What a graft leaves in the file: each new header cuts its own data out of it, SizeOfImage is the
    end of the layout, CheckSum is zero, and no other byte of the stub changed.
   */
  predicate HoldsStubAndSections(stub: Bytes, pe: PeView, ss: seq<Section>, out: Bytes)
    requires TableEnd(pe) <= |stub|
  {
    && |stub| <= |out| && pe.optOff + 68 <= |out|
    && (forall k :: 0 <= k < |stub| && !IsPatched(pe, k) && !InNewSlots(pe, ss, k) ==> out[k] == stub[k])
    && (forall i :: 0 <= i < |ss| ==> Carries(out, Slot(pe, pe.numSections + i), ss[i]))
    && (FinalVma(stub, pe, ss) <= U32_MAX ==> Rd32(out, pe.optOff + 56) == FinalVma(stub, pe, ss))
    && Rd32(out, pe.optOff + 64) == 0
  }

  lemma ImageHolds(stub: Bytes, pe: PeView, ss: seq<Section>)
    requires Laid(|stub|, pe, ss)
    ensures HoldsStubAndSections(stub, pe, ss, Image(stub, pe, ss, FirstVma(stub, pe)))
  {
    var vma := FirstVma(stub, pe);
    StubKept(stub, pe, ss, vma);
    PatchedFields(WithHeaders(stub, pe, ss, vma), pe, pe.numSections + |ss|, FinalVma(stub, pe, ss));
    forall i | 0 <= i < |ss|
      ensures Carries(Image(stub, pe, ss, vma), Slot(pe, pe.numSections + i), ss[i])
    {
      ImageCarries(stub, pe, ss, vma, i);
    }
  }

  /** Round trip, headers: the output parses as the stub's headers with the new sections counted. */
  lemma GraftReparses(stub: Bytes, ss: seq<Section>, out: Bytes)
    requires WellFormedStub(stub) && Grafted(stub, ss) == Ok(out)
    ensures var pe := Parse(stub).value; Parse(out) == Ok(pe.(numSections := pe.numSections + |ss|))
  {
    var pe := Parse(stub).value;
    GraftSucceedsIff(stub, ss);
    Reparses(stub, pe, ss, FirstVma(stub, pe));
  }

  /** Round trip, contents: every section comes back from its header, and the rest of the stub is framed. */
  lemma GraftHolds(stub: Bytes, ss: seq<Section>, out: Bytes)
    requires WellFormedStub(stub) && Grafted(stub, ss) == Ok(out)
    ensures HoldsStubAndSections(stub, Parse(stub).value, ss, out)
  {
    GraftSucceedsIff(stub, ss);
    ImageHolds(stub, Parse(stub).value, ss);
  }

  // ---- Layout ----

  /** Sections at `sh` and `sh'` of the image: the first ends, in file and in memory, before the second starts. */
  predicate Precedes(b: Bytes, sh: nat, sh': nat)
    requires sh + HEADER_SIZE <= |b| && sh' + HEADER_SIZE <= |b|
  {
    && RawPointer(b, sh) + RawSize(b, sh) <= RawPointer(b, sh')
    && VirtualEnd(b, sh) <= VirtualAddress(b, sh')
  }

  predicate AlignedSection(b: Bytes, pe: PeView, sh: nat)
    requires sh + HEADER_SIZE <= |b| && pe.fileAlign > 0 && pe.sectionAlign > 0
  {
    && RawPointer(b, sh) % pe.fileAlign == 0
    && RawSize(b, sh) % pe.fileAlign == 0
    && VirtualAddress(b, sh) % pe.sectionAlign == 0
  }

  /** The address range of the `i`-th placement. */
  lemma {:induction false} PlacementRange(stub: Bytes, pe: PeView, ss: seq<Section>, i: nat)
    requires Laid(|stub|, pe, ss) && i < |ss|
    ensures var vma := FirstVma(stub, pe);
      var p := PlaceAt(|stub|, vma, ss, i, pe.fileAlign, pe.sectionAlign);
      && vma <= p.vma && p.vma % pe.sectionAlign == 0
      && p.vma + p.size <= p.vma + p.rawSize <= EndVma(vma, ss, i + 1, pe.sectionAlign) <= FinalVma(stub, pe, ss)
  {
    var vma := FirstVma(stub, pe);
    AlignUpIsLeastMultiple(MaxVaEnd(stub, pe, pe.numSections), pe.sectionAlign);
    EndVmaGrows(vma, ss, i + 1, |ss|, pe.sectionAlign);
    EndVmaGrows(vma, ss, 0, i, pe.sectionAlign);
    EndVmaGrows(vma, ss, i, i + 1, pe.sectionAlign);
    AlignUpTwice(|ss[i].data|, pe.fileAlign, pe.sectionAlign);
    AlignUpIsLeastMultiple(|ss[i].data|, pe.fileAlign);
  }

  /** The layout of one new section, in terms of its placement. */
  lemma {:induction false} NewSectionExtent(stub: Bytes, pe: PeView, ss: seq<Section>, i: nat)
    requires Laid(|stub|, pe, ss) && i < |ss| && FinalVma(stub, pe, ss) <= U32_MAX
    ensures var vma := FirstVma(stub, pe);
      var out, sh := Image(stub, pe, ss, vma), Slot(pe, pe.numSections + i);
      && sh + HEADER_SIZE <= |stub|
      && AlignedSection(out, pe, sh)
      && |stub| <= RawPointer(out, sh)
      && RawPointer(out, sh) == AlignUp(FileEnd(|stub|, ss, i, pe.fileAlign), pe.fileAlign)
      && RawSize(out, sh) == AlignUp(|ss[i].data|, pe.fileAlign)
      && vma <= VirtualAddress(out, sh) == EndVma(vma, ss, i, pe.sectionAlign)
      && VirtualEnd(out, sh) <= EndVma(vma, ss, i + 1, pe.sectionAlign) <= FinalVma(stub, pe, ss)
  {
    PlacementRange(stub, pe, ss, i);
    PlacementBounds(stub, pe, ss, FirstVma(stub, pe), i);
    ImageFields(stub, pe, ss, FirstVma(stub, pe), i);
  }

  lemma NewSectionsOrdered(stub: Bytes, pe: PeView, ss: seq<Section>, i: nat, j: nat)
    requires Laid(|stub|, pe, ss) && i < j < |ss| && FinalVma(stub, pe, ss) <= U32_MAX
    ensures Slot(pe, pe.numSections + j) + HEADER_SIZE <= |stub|
    ensures Precedes(Image(stub, pe, ss, FirstVma(stub, pe)),
                     Slot(pe, pe.numSections + i), Slot(pe, pe.numSections + j))
  {
    NewSectionExtent(stub, pe, ss, i);
    NewSectionExtent(stub, pe, ss, j);
    AlignUpIsLeastMultiple(MaxVaEnd(stub, pe, pe.numSections), pe.sectionAlign);
    EndVmaGrows(FirstVma(stub, pe), ss, i + 1, j, pe.sectionAlign);
    FileEndGrows(|stub|, ss, i, j, pe.fileAlign);
    AlignUpIsLeastMultiple(FileEnd(|stub|, ss, j, pe.fileAlign), pe.fileAlign);
  }

  lemma OldSectionBelow(stub: Bytes, pe: PeView, ss: seq<Section>, s: nat)
    requires Laid(|stub|, pe, ss) && s < pe.numSections
    ensures var out, sh := Image(stub, pe, ss, FirstVma(stub, pe)), Slot(pe, s);
      && VirtualEnd(out, sh) == VirtualEnd(stub, sh) <= FirstVma(stub, pe)
      && RawPointer(out, sh) == RawPointer(stub, sh) && RawSize(out, sh) == RawSize(stub, sh)
  {
    var out, sh := Image(stub, pe, ss, FirstVma(stub, pe)), Slot(pe, s);
    StubKept(stub, pe, ss, FirstVma(stub, pe));
    HeaderFrame(stub, out, sh);
    var _ := MaxVaEndMeaning(stub, pe, pe.numSections, s);
    AlignUpIsLeastMultiple(MaxVaEnd(stub, pe, pe.numSections), pe.sectionAlign);
  }

  /**
    Image layout: new sections are aligned; in file and in memory each ends before the next begins;
    every stub section ends below them in memory, and in the file too when its raw data lies inside
    the stub; and SizeOfImage is aligned and covers every section.
   */
  lemma {:induction false} GraftLayout(stub: Bytes, ss: seq<Section>, out: Bytes, i: nat)
    requires WellFormedStub(stub) && Grafted(stub, ss) == Ok(out)
    requires FinalVma(stub, Parse(stub).value, ss) <= U32_MAX && i < |ss|
    ensures var pe := Parse(stub).value; var sh := Slot(pe, pe.numSections + i); var opt := Rd32(stub, 0x3c) + 24;
      && opt == pe.optOff && opt + 68 <= sh && sh + HEADER_SIZE <= |out|
      && AlignedSection(out, pe, sh)
      && pe.sectionAlign == Rd32(stub, opt + 32) && pe.fileAlign == Rd32(stub, opt + 36)
      && Rd32(out, opt + 56) % Rd32(stub, opt + 32) == 0
      && VirtualEnd(out, sh) <= Rd32(out, opt + 56)
      && forall s: nat :: s < pe.numSections + i ==>
           Slot(pe, s) + HEADER_SIZE <= sh && PrecedesNew(out, |stub|, pe, s, sh)
  {
    var pe := Parse(stub).value;
    GraftSucceedsIff(stub, ss);
    LaidLayout(stub, pe, ss, i);
  }

  /** Section `s` ends before the new section at `sh` starts; a stub section's raw extent must lie inside the stub. */
  predicate PrecedesNew(b: Bytes, stubLen: nat, pe: PeView, s: nat, sh: nat)
    requires Slot(pe, s) + HEADER_SIZE <= |b| && sh + HEADER_SIZE <= |b|
  {
    var sh' := Slot(pe, s);
    && VirtualEnd(b, sh') <= VirtualAddress(b, sh)
    && (RawPointer(b, sh') + RawSize(b, sh') <= stubLen || s >= pe.numSections ==>
          RawPointer(b, sh') + RawSize(b, sh') <= RawPointer(b, sh))
  }

  lemma LaidLayout(stub: Bytes, pe: PeView, ss: seq<Section>, i: nat)
    requires Laid(|stub|, pe, ss) && FinalVma(stub, pe, ss) <= U32_MAX && i < |ss|
    ensures var sh := Slot(pe, pe.numSections + i); var out := Image(stub, pe, ss, FirstVma(stub, pe));
      && sh + HEADER_SIZE <= |out|
      && AlignedSection(out, pe, sh)
      && Rd32(out, pe.optOff + 56) % pe.sectionAlign == 0
      && VirtualEnd(out, sh) <= Rd32(out, pe.optOff + 56)
      && forall s: nat :: s < pe.numSections + i ==>
           Slot(pe, s) + HEADER_SIZE <= sh && PrecedesNew(out, |stub|, pe, s, sh)
  {
    var vma := FirstVma(stub, pe);
    var sh, out := Slot(pe, pe.numSections + i), Image(stub, pe, ss, vma);
    NewSectionExtent(stub, pe, ss, i);
    AlignUpIsLeastMultiple(MaxVaEnd(stub, pe, pe.numSections), pe.sectionAlign);
    EndVmaGrows(vma, ss, 0, |ss|, pe.sectionAlign);
    PatchedFields(WithHeaders(stub, pe, ss, vma), pe, pe.numSections + |ss|, FinalVma(stub, pe, ss));
    forall s: nat | s < pe.numSections + i
      ensures Slot(pe, s) + HEADER_SIZE <= sh && PrecedesNew(out, |stub|, pe, s, sh)
    {
      if s < pe.numSections {
        OldSectionBelow(stub, pe, ss, s);
      } else {
        NewSectionsOrdered(stub, pe, ss, s - pe.numSections, i);
      }
    }
  }

  /** A section gets an address of its own exactly when it is not empty: an empty one shares its successor's. */
  lemma AddressAdvancesIff(stub: Bytes, pe: PeView, ss: seq<Section>, i: nat)
    requires TableEnd(pe) <= |stub| && IsPow2(pe.sectionAlign) && i < |ss|
    ensures var vma := FirstVma(stub, pe);
      EndVma(vma, ss, i, pe.sectionAlign) < EndVma(vma, ss, i + 1, pe.sectionAlign) <==> ss[i].data != []
  {
    AlignUpIsLeastMultiple(MaxVaEnd(stub, pe, pe.numSections), pe.sectionAlign);
    EndVmaGrows(FirstVma(stub, pe), ss, 0, i, pe.sectionAlign);
    var before := EndVma(FirstVma(stub, pe), ss, i, pe.sectionAlign);
    AlignUpIsLeastMultiple(before + |ss[i].data|, pe.sectionAlign);
    if ss[i].data == [] {
      AlignUpFixed(before, pe.sectionAlign);
    }
  }
}
