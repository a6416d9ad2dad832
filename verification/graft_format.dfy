/**
  What a grafted image is, byte by byte and by the offsets of the format, without the layout functions of the
  builder: every field of every new header, the raw data with its padding, and all other bytes.
 */
module GraftFormat {
  import opened Arithmetic
  import opened Bytes
  import opened Wrappers
  import opened Alignment
  import opened PeImage
  import opened Graft
  import opened GraftTheorems
  import opened PeFormat

  predicate LeastMultiple(y: nat, x: nat, a: nat) {
    a > 0 && y % a == 0 && x <= y < x + a
  }

  /** Offset of header number `i`, old or new. */
  function HeaderAt(stub: Bytes, i: nat): nat
    requires HasHeaders(stub)
  {
    TableIn(stub) + 40 * i
  }

  /** A name in its eight bytes, padded with zeros. */
  function NameByte(name: Bytes, j: nat): Byte {
    if j < |name| then name[j] else 0
  }

  /** All of a section header but where its data and its addresses lie. */
  predicate HeaderFor(out: Bytes, sh: nat, s: Section) {
    && sh + 40 <= |out| && |s.name| <= 8
    && (forall k :: sh <= k < sh + 8 ==> out[k] == NameByte(s.name, k - sh))
    && U32At(out, sh + 8) == |s.data|
    && (forall k :: sh + 24 <= k < sh + 36 ==> out[k] == 0)
    && U32At(out, sh + 36) == 0x4000_0040
  }

  /** `size` bytes at `p`, the first aligned place from `from` on, hold the data; all around it is zero. */
  predicate RawData(out: Bytes, from: nat, p: nat, size: nat, data: Bytes, fileAlign: nat) {
    && LeastMultiple(p, from, fileAlign) && LeastMultiple(size, |data|, fileAlign) && p + size <= |out|
    && (forall k :: from <= k < p ==> out[k] == 0)
    && (forall t :: 0 <= t < |data| ==> out[p + t] == data[t])
    && (forall k :: p + |data| <= k < p + size ==> out[k] == 0)
  }

  /** Where the file ended before new section `i` was appended: its predecessor's file pointer and raw size. */
  function EndBefore(stub: Bytes, out: Bytes, i: nat): nat
    requires HasHeaders(stub) && HeaderAt(stub, CountIn(stub) + i) <= |out|
  {
    if i == 0 then |stub|
    else
      var sh := HeaderAt(stub, CountIn(stub) + i - 1);
      U32At(out, sh + 20) + U32At(out, sh + 16)
  }

  /** The bytes that are rewritten: NumberOfSections, SizeOfImage, CheckSum, and the new headers. */
  predicate Rewritten(stub: Bytes, n: nat, k: nat)
    requires HasHeaders(stub)
  {
    var e := PeAt(stub);
    || e + 6 <= k < e + 8 || e + 24 + 56 <= k < e + 24 + 60 || e + 24 + 64 <= k < e + 24 + 68
    || HeaderAt(stub, CountIn(stub)) <= k < HeaderAt(stub, CountIn(stub) + n)
  }

  /** The file: headers, raw data back to back behind the stub, nothing after it, and the stub otherwise kept. */
  predicate IsGraft(stub: Bytes, ss: seq<Section>, out: Bytes) {
    && HasHeaders(stub)
    && var e, n := PeAt(stub), CountIn(stub);
    && HeaderAt(stub, n + |ss|) <= |stub| <= |out| && e + 24 + 68 <= |out|
    && U16At(out, e + 6) == n + |ss| && U32At(out, e + 24 + 64) == 0
    && (forall k :: 0 <= k < |stub| && !Rewritten(stub, |ss|, k) ==> out[k] == stub[k])
    && SectionsHeld(stub, ss, out) && |out| == EndBefore(stub, out, |ss|)
  }

  predicate SectionsHeld(stub: Bytes, ss: seq<Section>, out: Bytes)
    requires HasHeaders(stub) && HeaderAt(stub, CountIn(stub) + |ss|) <= |out|
  {
    forall i :: 0 <= i < |ss| ==> IsSection(stub, ss, out, i)
  }

  predicate IsSection(stub: Bytes, ss: seq<Section>, out: Bytes, i: nat)
    requires HasHeaders(stub) && i < |ss| && HeaderAt(stub, CountIn(stub) + |ss|) <= |out|
  {
    var sh := HeaderAt(stub, CountIn(stub) + i);
    && HeaderFor(out, sh, ss[i])
    && RawData(out, EndBefore(stub, out, i), U32At(out, sh + 20), U32At(out, sh + 16), ss[i].data,
               FileAlignment(stub))
  }

  // ---- Addresses ----

  /** Old section `s` ends at or below `v`, by its virtual size and by its raw size. */
  predicate EndsBelow(stub: Bytes, s: nat, v: nat)
    requires HasHeaders(stub) && s < CountIn(stub)
  {
    var sh := HeaderAt(stub, s);
    U32At(stub, sh + 12) + U32At(stub, sh + 8) <= v && U32At(stub, sh + 12) + U32At(stub, sh + 16) <= v
  }

  /** `v` is the least multiple of the section alignment at or above the ends of all old sections. */
  predicate FirstAddress(stub: Bytes, v: nat)
    requires HasHeaders(stub)
  {
    && SectionAlignment(stub) > 0 && v % SectionAlignment(stub) == 0
    && (forall s :: 0 <= s < CountIn(stub) ==> EndsBelow(stub, s, v))
    && (v >= SectionAlignment(stub) ==> SomeEndsAbove(stub, v - SectionAlignment(stub)))
  }

  predicate SomeEndsAbove(stub: Bytes, v: nat)
    requires HasHeaders(stub)
  {
    exists s :: 0 <= s < CountIn(stub) && !EndsBelow(stub, s, v)
  }

  /**
   * The addresses of the new sections, and of the end of the image behind them: each the least multiple of the
   * section alignment at or above the end of the data before it.
   */
  predicate Addresses(stub: Bytes, ss: seq<Section>, v: seq<nat>)
    requires HasHeaders(stub)
  {
    && |v| == |ss| + 1 && FirstAddress(stub, v[0])
    && forall i :: 0 <= i < |ss| ==> LeastMultiple(v[i + 1], v[i] + |ss[i].data|, SectionAlignment(stub))
  }

  /** VirtualAddress of every new section and SizeOfImage hold these addresses, cut to 32 bits. */
  predicate HoldsAddresses(stub: Bytes, ss: seq<Section>, out: Bytes, v: seq<nat>)
    requires HasHeaders(stub) && HeaderAt(stub, CountIn(stub) + |ss|) <= |out| && PeAt(stub) + 24 + 60 <= |out|
    requires |v| == |ss| + 1
  {
    && (forall i :: 0 <= i < |ss| ==> HoldsAddress(stub, out, i, v[i]))
    && U32At(out, PeAt(stub) + 24 + 56) == v[|ss|] % 0x1_0000_0000
  }

  predicate HoldsAddress(stub: Bytes, out: Bytes, i: nat, v: nat)
    requires HasHeaders(stub) && HeaderAt(stub, CountIn(stub) + i + 1) <= |out|
  {
    U32At(out, HeaderAt(stub, CountIn(stub) + i) + 12) == v % 0x1_0000_0000
  }

  // ---- The image is one ----

  /** The bytes of a header buffer that stands at `sh`. */
  lemma HeaderTextIs(out: Bytes, sh: nat, p: Placement, s: Section)
    requires |p.name| <= 8 && p.name == s.name && sh + 40 <= |out|
    requires forall t :: sh <= t < sh + 40 ==> out[t] == HeaderBytes(p)[t - sh]
    ensures forall k :: sh <= k < sh + 8 ==> out[k] == NameByte(s.name, k - sh)
    ensures forall k :: sh + 24 <= k < sh + 36 ==> out[k] == 0
    ensures U32At(out, sh + 36) == 0x4000_0040
  {
    HeaderTail(p);
    HeaderBytesIndex(p);
    assert out[sh + 36] == 0x40 && out[sh + 37] == 0 && out[sh + 38] == 0 && out[sh + 39] == 0x40;
  }

  /** New section `i` has its header, wherever the layout puts that. */
  lemma SlotIsFor(stub: Bytes, pe: PeView, ss: seq<Section>, vma: nat, i: nat)
    requires Laid(|stub|, pe, ss) && i < |ss|
    ensures HeaderFor(Image(stub, pe, ss, vma), Slot(pe, pe.numSections + i), ss[i])
  {
    var out, sh := Image(stub, pe, ss, vma), Slot(pe, pe.numSections + i);
    ImageFields(stub, pe, ss, vma, i);
    ImageSlots(stub, pe, ss, vma, i);
    HeaderTextIs(out, sh, PlaceAt(|stub|, vma, ss, i, pe.fileAlign, pe.sectionAlign), ss[i]);
    Reads32(out, sh + 8);
  }

  lemma HeaderIsFor(stub: Bytes, pe: PeView, ss: seq<Section>, vma: nat, i: nat)
    requires Parse(stub) == Ok(pe) && Laid(|stub|, pe, ss) && i < |ss|
    ensures HasHeaders(stub) && HeaderFor(Image(stub, pe, ss, vma), HeaderAt(stub, CountIn(stub) + i), ss[i])
  {
    ParseIff(stub);
    SlotIsFor(stub, pe, ss, vma, i);
  }

  /** File pointer and raw size of new section `i`, as the layout functions have them. */
  lemma RawFields(stub: Bytes, pe: PeView, ss: seq<Section>, vma: nat, i: nat)
    requires Parse(stub) == Ok(pe) && Laid(|stub|, pe, ss) && i < |ss|
    ensures HasHeaders(stub) && HeaderAt(stub, CountIn(stub) + i) + 40 <= |stub|
    ensures var out, sh := Image(stub, pe, ss, vma), HeaderAt(stub, CountIn(stub) + i);
      && U32At(out, sh + 20) == AlignUp(FileEnd(|stub|, ss, i, pe.fileAlign), pe.fileAlign)
      && U32At(out, sh + 16) == AlignUp(|ss[i].data|, pe.fileAlign)
      && U32At(out, sh + 20) + U32At(out, sh + 16) == FileEnd(|stub|, ss, i + 1, pe.fileAlign)
      && U32At(out, sh + 12) == Low32(EndVma(vma, ss, i, pe.sectionAlign))
  {
    ParseIff(stub);
    var out, sh := Image(stub, pe, ss, vma), HeaderAt(stub, CountIn(stub) + i);
    ImageFields(stub, pe, ss, vma, i);
    Reads32(out, sh + 12);
    Reads32(out, sh + 16);
    Reads32(out, sh + 20);
  }

  lemma {:induction false} EndBeforeIs(stub: Bytes, pe: PeView, ss: seq<Section>, vma: nat, i: nat)
    requires Parse(stub) == Ok(pe) && Laid(|stub|, pe, ss) && i <= |ss|
    ensures HasHeaders(stub) && HeaderAt(stub, CountIn(stub) + |ss|) <= |stub| <= |Image(stub, pe, ss, vma)|
    ensures EndBefore(stub, Image(stub, pe, ss, vma), i) == FileEnd(|stub|, ss, i, pe.fileAlign)
  {
    ParseIff(stub);
    if i > 0 {
      RawFields(stub, pe, ss, vma, i - 1);
    }
  }

  /** The image agrees with the padded file from the end of the stub on. */
  lemma {:induction false} BehindStub(stub: Bytes, pe: PeView, ss: seq<Section>, vma: nat, k: nat)
    requires Laid(|stub|, pe, ss) && |stub| <= k < FileEnd(|stub|, ss, |ss|, pe.fileAlign)
    ensures Image(stub, pe, ss, vma)[k] == PaddedTo(stub, ss, |ss|, pe.fileAlign)[k]
  {
    ImageFrame(stub, pe, ss, vma);
  }

  lemma {:induction false} PaddingIsZero(stub: Bytes, pe: PeView, ss: seq<Section>, vma: nat, i: nat, k: nat)
    requires Laid(|stub|, pe, ss) && i < |ss|
    requires var p := AlignUp(FileEnd(|stub|, ss, i, pe.fileAlign), pe.fileAlign);
      || FileEnd(|stub|, ss, i, pe.fileAlign) <= k < p
      || p + |ss[i].data| <= k < p + AlignUp(|ss[i].data|, pe.fileAlign)
    ensures k < |Image(stub, pe, ss, vma)| && Image(stub, pe, ss, vma)[k] == 0
  {
    AlignUpIsLeastMultiple(FileEnd(|stub|, ss, i, pe.fileAlign), pe.fileAlign);
    FileEndGrows(|stub|, ss, 0, i, pe.fileAlign);
    PaddedToZero(stub, ss, i, |ss|, pe.fileAlign, k);
    BehindStub(stub, pe, ss, vma, k);
  }

  lemma {:induction false} DataIsThere(stub: Bytes, pe: PeView, ss: seq<Section>, vma: nat, i: nat, t: nat)
    requires Laid(|stub|, pe, ss) && i < |ss| && t < |ss[i].data|
    ensures var p, out := AlignUp(FileEnd(|stub|, ss, i, pe.fileAlign), pe.fileAlign), Image(stub, pe, ss, vma);
      p + t < |out| && out[p + t] == ss[i].data[t]
  {
    var p := AlignUp(FileEnd(|stub|, ss, i, pe.fileAlign), pe.fileAlign);
    AlignUpIsLeastMultiple(FileEnd(|stub|, ss, i, pe.fileAlign), pe.fileAlign);
    FileEndGrows(|stub|, ss, 0, i, pe.fileAlign);
    PaddedToData(stub, ss, i, |ss|, pe.fileAlign, t);
    BehindStub(stub, pe, ss, vma, p + t);
  }

  lemma {:induction false} SectionRaw(stub: Bytes, pe: PeView, ss: seq<Section>, vma: nat, i: nat)
    requires Laid(|stub|, pe, ss) && i < |ss|
    ensures RawData(Image(stub, pe, ss, vma), FileEnd(|stub|, ss, i, pe.fileAlign),
                    AlignUp(FileEnd(|stub|, ss, i, pe.fileAlign), pe.fileAlign),
                    AlignUp(|ss[i].data|, pe.fileAlign), ss[i].data, pe.fileAlign)
  {
    var out, from, fa := Image(stub, pe, ss, vma), FileEnd(|stub|, ss, i, pe.fileAlign), pe.fileAlign;
    var p, size := AlignUp(from, fa), AlignUp(|ss[i].data|, fa);
    AlignUpIsLeastMultiple(from, fa);
    AlignUpIsLeastMultiple(|ss[i].data|, fa);
    FileEndGrows(|stub|, ss, i, |ss|, fa);
    forall k | from <= k < p || p + |ss[i].data| <= k < p + size ensures k < |out| && out[k] == 0 {
      PaddingIsZero(stub, pe, ss, vma, i, k);
    }
    forall t | 0 <= t < |ss[i].data| ensures out[p + t] == ss[i].data[t] {
      DataIsThere(stub, pe, ss, vma, i, t);
    }
  }

  lemma ImageIsSection(stub: Bytes, pe: PeView, ss: seq<Section>, vma: nat, i: nat)
    requires Parse(stub) == Ok(pe) && Laid(|stub|, pe, ss) && i < |ss|
    ensures HasHeaders(stub) && HeaderAt(stub, CountIn(stub) + |ss|) <= |Image(stub, pe, ss, vma)|
    ensures IsSection(stub, ss, Image(stub, pe, ss, vma), i)
  {
    ParseIff(stub);
    HeaderIsFor(stub, pe, ss, vma, i);
    RawFields(stub, pe, ss, vma, i);
    EndBeforeIs(stub, pe, ss, vma, i);
    EndBeforeIs(stub, pe, ss, vma, |ss|);
    SectionRaw(stub, pe, ss, vma, i);
  }

  lemma PatchedAre(b: Bytes, pe: PeView, count: nat, vma: nat)
    requires pe.peOff + 24 == pe.optOff && pe.optOff + 68 <= |b| && count <= 0xFFFF
    ensures var r := PatchFields(b, pe, count, vma);
      && U16At(r, pe.peOff + 6) == count && U32At(r, pe.peOff + 24 + 64) == 0
      && U32At(r, pe.peOff + 24 + 56) == Low32(vma)
  {
    var r := PatchFields(b, pe, count, vma);
    PatchedFields(b, pe, count, vma);
    Reads16(r, pe.peOff + 6);
    Reads32(r, pe.peOff + 24 + 56);
    Reads32(r, pe.peOff + 24 + 64);
  }

  lemma {:induction false} ImagePatched(stub: Bytes, pe: PeView, ss: seq<Section>, vma: nat)
    requires Laid(|stub|, pe, ss)
    ensures var out := Image(stub, pe, ss, vma);
      && |stub| <= |out| && pe.peOff + 24 + 68 <= |stub|
      && U16At(out, pe.peOff + 6) == pe.numSections + |ss| && U32At(out, pe.peOff + 24 + 64) == 0
      && U32At(out, pe.peOff + 24 + 56) == Low32(EndVma(vma, ss, |ss|, pe.sectionAlign))
  {
    PatchedAre(WithHeaders(stub, pe, ss, vma), pe, pe.numSections + |ss|, EndVma(vma, ss, |ss|, pe.sectionAlign));
  }

  lemma RewrittenIff(stub: Bytes, pe: PeView, ss: seq<Section>, k: nat)
    requires Parse(stub) == Ok(pe)
    ensures HasHeaders(stub) && (Rewritten(stub, |ss|, k) <==> IsPatched(pe, k) || InNewSlots(pe, ss, k))
  {
    ParseIff(stub);
  }

  lemma {:induction false} KeptBytes(stub: Bytes, pe: PeView, ss: seq<Section>, vma: nat)
    requires Parse(stub) == Ok(pe) && Laid(|stub|, pe, ss) && HasHeaders(stub)
    ensures |stub| <= |Image(stub, pe, ss, vma)|
    ensures forall k :: 0 <= k < |stub| && !Rewritten(stub, |ss|, k) ==> Image(stub, pe, ss, vma)[k] == stub[k]
  {
    ImagePatched(stub, pe, ss, vma);
    StubKept(stub, pe, ss, vma);
    forall k | 0 <= k < |stub| && !Rewritten(stub, |ss|, k) ensures Image(stub, pe, ss, vma)[k] == stub[k] {
      RewrittenIff(stub, pe, ss, k);
    }
  }

  /** The fields and bytes outside the new sections. */
  lemma {:induction false} ImageFrameOf(stub: Bytes, pe: PeView, ss: seq<Section>, vma: nat)
    requires Parse(stub) == Ok(pe) && Laid(|stub|, pe, ss)
    ensures HasHeaders(stub)
    ensures var out, e := Image(stub, pe, ss, vma), PeAt(stub);
      && |stub| <= |out| && e + 24 + 68 <= |stub|
      && U16At(out, e + 6) == CountIn(stub) + |ss| && U32At(out, e + 24 + 64) == 0
      && U32At(out, e + 24 + 56) == Low32(EndVma(vma, ss, |ss|, pe.sectionAlign))
      && (forall k :: 0 <= k < |stub| && !Rewritten(stub, |ss|, k) ==> out[k] == stub[k])
  {
    ParseIff(stub);
    ImagePatched(stub, pe, ss, vma);
    KeptBytes(stub, pe, ss, vma);
  }

  lemma ImageIsGraft(stub: Bytes, pe: PeView, ss: seq<Section>, vma: nat)
    requires Parse(stub) == Ok(pe) && Laid(|stub|, pe, ss)
    ensures IsGraft(stub, ss, Image(stub, pe, ss, vma))
  {
    var out := Image(stub, pe, ss, vma);
    ImageFrameOf(stub, pe, ss, vma);
    EndBeforeIs(stub, pe, ss, vma, |ss|);
    forall i | 0 <= i < |ss| ensures IsSection(stub, ss, out, i) {
      ImageIsSection(stub, pe, ss, vma, i);
    }
  }

  // ---- Its addresses ----

  lemma OldFields(stub: Bytes, pe: PeView, s: nat)
    requires Parse(stub) == Ok(pe) && s < pe.numSections
    ensures HasHeaders(stub) && CountIn(stub) == pe.numSections
    ensures forall v :: EndsBelow(stub, s, v) <==> VirtualEnd(stub, Slot(pe, s)) <= v
  {
    ParseIff(stub);
    Reads32(stub, Slot(pe, s) + 8);
    Reads32(stub, Slot(pe, s) + 12);
    Reads32(stub, Slot(pe, s) + 16);
  }

  lemma FirstIsLeast(stub: Bytes, pe: PeView)
    requires Parse(stub) == Ok(pe) && IsPow2(pe.sectionAlign)
    ensures HasHeaders(stub) && FirstAddress(stub, FirstVma(stub, pe))
  {
    ParseIff(stub);
    var end, v := MaxVaEnd(stub, pe, pe.numSections), FirstVma(stub, pe);
    AlignUpIsLeastMultiple(end, pe.sectionAlign);
    forall s | 0 <= s < CountIn(stub) ensures EndsBelow(stub, s, v) {
      OldFields(stub, pe, s);
      var _ := MaxVaEndMeaning(stub, pe, pe.numSections, s);
    }
    if v >= pe.sectionAlign && pe.numSections > 0 {
      var best := MaxVaEndMeaning(stub, pe, pe.numSections, 0);
      OldFields(stub, pe, best);
      assert !EndsBelow(stub, best, v - pe.sectionAlign);
    }
  }

  /** The addresses, as the layout functions have them. */
  function AddressList(vma: nat, ss: seq<Section>, sectionAlign: nat): (v: seq<nat>)
    ensures |v| == |ss| + 1 && forall i :: 0 <= i <= |ss| ==> v[i] == EndVma(vma, ss, i, sectionAlign)
  {
    seq(|ss| + 1, i requires 0 <= i < |ss| + 1 => EndVma(vma, ss, i, sectionAlign))
  }

  lemma AddressesAre(stub: Bytes, pe: PeView, ss: seq<Section>)
    requires Parse(stub) == Ok(pe) && IsPow2(pe.sectionAlign)
    ensures HasHeaders(stub) && Addresses(stub, ss, AddressList(FirstVma(stub, pe), ss, pe.sectionAlign))
  {
    var vma, sa := FirstVma(stub, pe), pe.sectionAlign;
    ParseIff(stub);
    FirstIsLeast(stub, pe);
    forall i | 0 <= i < |ss|
      ensures LeastMultiple(EndVma(vma, ss, i + 1, sa), EndVma(vma, ss, i, sa) + |ss[i].data|, sa)
    {
      AlignUpIsLeastMultiple(EndVma(vma, ss, i, sa) + |ss[i].data|, sa);
    }
  }

  lemma ImageHoldsAddresses(stub: Bytes, pe: PeView, ss: seq<Section>, vma: nat)
    requires Parse(stub) == Ok(pe) && Laid(|stub|, pe, ss)
    ensures var out := Image(stub, pe, ss, vma);
      && HasHeaders(stub) && HeaderAt(stub, CountIn(stub) + |ss|) <= |out| && PeAt(stub) + 24 + 60 <= |out|
      && HoldsAddresses(stub, ss, out, AddressList(vma, ss, pe.sectionAlign))
  {
    ImageFrameOf(stub, pe, ss, vma);
    EndBeforeIs(stub, pe, ss, vma, |ss|);
    var v := AddressList(vma, ss, pe.sectionAlign);
    forall i | 0 <= i < |ss| ensures HoldsAddress(stub, Image(stub, pe, ss, vma), i, v[i]) {
      RawFields(stub, pe, ss, vma, i);
    }
  }

  // ---- Stubs and success, by the format ----

  /** A stub as the format describes it, with a header area that lies inside the file. */
  predicate IsStub(b: Bytes) {
    && HasHeaders(b) && IsPow2(FileAlignment(b)) && IsPow2(SectionAlignment(b))
    && FileAlignment(b) <= SectionAlignment(b) && PeAt(b) >= 0x40 && PeAt(b) + 24 + 112 <= TableIn(b)
    && (SizeOfHeaders(b) <= |b| || exists s :: 0 <= s < CountIn(b) && StartsIn(b, s, |b|))
  }

  /** Old section `s` has raw data, at or below this offset. */
  predicate StartsIn(b: Bytes, s: nat, offset: nat)
    requires HasHeaders(b) && s < CountIn(b)
  {
    0 < U32At(b, HeaderAt(b, s) + 20) <= offset
  }

  /** Old section `s` has no raw data below this offset. */
  predicate ClearOf(b: Bytes, s: nat, end: nat)
    requires HasHeaders(b) && s < CountIn(b)
  {
    var pointer := U32At(b, HeaderAt(b, s) + 20);
    pointer == 0 || end <= pointer
  }

  predicate AllClear(b: Bytes, end: nat)
    requires HasHeaders(b)
  {
    forall s :: 0 <= s < CountIn(b) ==> ClearOf(b, s, end)
  }

  /** The headers of `n` more sections end inside the header area and before any raw data. */
  predicate HeadersFit(b: Bytes, n: nat)
    requires HasHeaders(b)
  {
    var end := HeaderAt(b, CountIn(b) + n);
    end <= SizeOfHeaders(b) && AllClear(b, end)
  }

  lemma PointerAt(b: Bytes, pe: PeView, s: nat)
    requires Parse(b) == Ok(pe) && s < pe.numSections
    ensures HasHeaders(b) && CountIn(b) == pe.numSections
    ensures RawPointer(b, Slot(pe, s)) == U32At(b, HeaderAt(b, s) + 20)
  {
    ParseIff(b);
    Reads32(b, HeaderAt(b, s) + 20);
  }

  /** A bound lies at or below the ceiling exactly when it does for SizeOfHeaders and every file pointer. */
  lemma CeilingIff(b: Bytes, pe: PeView, end: nat)
    requires Parse(b) == Ok(pe)
    ensures HasHeaders(b) && CountIn(b) == pe.numSections
    ensures end <= HeaderCeiling(b, pe)
      <==> end <= SizeOfHeaders(b) && AllClear(b, end)
  {
    ParseIff(b);
    forall s | 0 <= s < CountIn(b) ensures ClearOf(b, s, end) <==> PointerAbove(b, pe, s, end) {
      PointerAt(b, pe, s);
    }
    PointersIff(b, pe, end);
  }

  predicate PointerAbove(b: Bytes, pe: PeView, s: nat, end: nat)
    requires s < pe.numSections && TableEnd(pe) <= |b|
  {
    RawPointer(b, Slot(pe, s)) == 0 || end <= RawPointer(b, Slot(pe, s))
  }

  lemma {:induction false} PointersIff(b: Bytes, pe: PeView, end: nat)
    requires Parse(b) == Ok(pe)
    ensures end <= MinRawPointer(b, pe, pe.numSections)
      <==> && end <= 0xFFFF_FFFF_FFFF_FFFF
           && forall s :: 0 <= s < pe.numSections ==> PointerAbove(b, pe, s, end)
  {
    var n := pe.numSections;
    if s :| 0 <= s < n && RawPointer(b, Slot(pe, s)) > 0 {
      var least := MinRawPointerMeaning(b, pe, n, s);
      forall t | 0 <= t < n && RawPointer(b, Slot(pe, t)) > 0
        ensures MinRawPointer(b, pe, n) <= RawPointer(b, Slot(pe, t)) <= U32_MAX
      {
        var _ := MinRawPointerMeaning(b, pe, n, t);
      }
      assert PointerAbove(b, pe, least, end) <==> end <= MinRawPointer(b, pe, n);
    } else {
      NoRawPointer(b, pe, n);
    }
  }

  lemma CeilingInside(b: Bytes, pe: PeView)
    requires Parse(b) == Ok(pe)
    ensures HasHeaders(b) && CountIn(b) == pe.numSections
    ensures HeaderCeiling(b, pe) <= |b|
      <==> SizeOfHeaders(b) <= |b| || exists s :: 0 <= s < CountIn(b) && StartsIn(b, s, |b|)
  {
    CeilingIff(b, pe, |b| + 1);
    if exists s :: 0 <= s < CountIn(b) && StartsIn(b, s, |b|) {
      var s :| 0 <= s < CountIn(b) && StartsIn(b, s, |b|);
      assert !ClearOf(b, s, |b| + 1);
    }
    if !AllClear(b, |b| + 1) {
      var s :| 0 <= s < CountIn(b) && !ClearOf(b, s, |b| + 1);
      assert StartsIn(b, s, |b|);
    }
  }

  /** This is what the code relies on. */
  lemma StubIff(b: Bytes)
    ensures IsStub(b) <==> WellFormedStub(b)
  {
    ParseIff(b);
    if Parse(b).Ok? {
      CeilingInside(b, Parse(b).value);
    }
  }

  /** The next multiple, by arithmetic instead of a mask. */
  function UpTo(x: nat, a: nat): nat
    requires a > 0
  {
    x + (a - x % a) % a
  }

  /** The length of the file when the first `n` sections are appended. */
  function LengthAfter(len: nat, ss: seq<Section>, n: nat, fileAlign: nat): nat
    requires fileAlign > 0 && n <= |ss|
  {
    if n == 0 then len
    else UpTo(LengthAfter(len, ss, n - 1, fileAlign), fileAlign) + UpTo(|ss[n - 1].data|, fileAlign)
  }

  lemma {:induction false} UpToIsLeast(x: nat, a: nat)
    requires a > 0
    ensures LeastMultiple(UpTo(x, a), x, a)
  {
    var r := x % a;
    if r == 0 {
      assert UpTo(x, a) == x;
    } else {
      assert UpTo(x, a) == x / a * a + a;
      MultipleMod(x / a + 1, a);
      assert (x / a + 1) * a == x / a * a + a;
    }
  }

  lemma {:induction false} UpToIsAlignUp(x: nat, a: nat)
    requires IsPow2(a)
    ensures UpTo(x, a) == AlignUp(x, a)
  {
    UpToIsLeast(x, a);
    AlignUpUnique(x, a, UpTo(x, a));
  }

  lemma {:induction false} LengthIsFileEnd(len: nat, ss: seq<Section>, n: nat, fileAlign: nat)
    requires IsPow2(fileAlign) && n <= |ss|
    ensures LengthAfter(len, ss, n, fileAlign) == FileEnd(len, ss, n, fileAlign)
  {
    if n > 0 {
      LengthIsFileEnd(len, ss, n - 1, fileAlign);
      UpToIsAlignUp(FileEnd(len, ss, n - 1, fileAlign), fileAlign);
      UpToIsAlignUp(|ss[n - 1].data|, fileAlign);
    }
  }

  predicate ShortNames(ss: seq<Section>) {
    forall i :: 0 <= i < |ss| ==> |ss[i].name| <= 8
  }

  /** Room for the headers, short names, and fields wide enough for the section count and the file's length. */
  predicate CanGraft(b: Bytes, ss: seq<Section>)
    requires HasHeaders(b) && FileAlignment(b) > 0
  {
    && HeadersFit(b, |ss|) && ShortNames(ss)
    && CountIn(b) + |ss| <= 0xFFFF && LengthAfter(|b|, ss, |ss|, FileAlignment(b)) <= 0xFFFF_FFFF
  }

  lemma GraftsIff(b: Bytes, ss: seq<Section>)
    requires IsStub(b)
    ensures Grafted(b, ss).Ok? <==> CanGraft(b, ss)
    ensures Grafted(b, ss).Ok? ==>
      var pe := Parse(b).value;
      Parse(b).Ok? && Laid(|b|, pe, ss) && Grafted(b, ss).value == Image(b, pe, ss, FirstVma(b, pe))
  {
    StubIff(b);
    ParseIff(b);
    GraftSucceedsIff(b, ss);
    LengthIsFileEnd(|b|, ss, |ss|, FileAlignment(b));
    CeilingIff(b, Parse(b).value, HeaderAt(b, CountIn(b) + |ss|));
  }

  /** The four ways in which grafting fails on such a stub, in the order in which they are reported. */
  lemma {:induction false} GraftErrors(b: Bytes, ss: seq<Section>)
    requires IsStub(b)
    ensures var r, many := Grafted(b, ss), CountIn(b) + |ss| > 0xFFFF;
      var long := LengthAfter(|b|, ss, |ss|, FileAlignment(b)) > 0xFFFF_FFFF;
      && (r == Err(NoHeaderRoom) <==> !HeadersFit(b, |ss|))
      && (r == Err(NameTooLong) <==> HeadersFit(b, |ss|) && !ShortNames(ss))
      && (r == Err(TooManySections) <==> HeadersFit(b, |ss|) && ShortNames(ss) && many)
      && (r == Err(Exceeds4GiB) <==> HeadersFit(b, |ss|) && ShortNames(ss) && !many && long)
  {
    StubIff(b);
    ParseIff(b);
    GraftSucceedsIff(b, ss);
    GraftsIff(b, ss);
    LengthIsFileEnd(|b|, ss, |ss|, FileAlignment(b));
    CeilingIff(b, Parse(b).value, HeaderAt(b, CountIn(b) + |ss|));
  }

  /** What grafting makes of a stub, by the format alone. */
  ghost predicate IsGraftOf(stub: Bytes, ss: seq<Section>, out: Bytes) {
    && IsGraft(stub, ss, out)
    && exists v :: Addresses(stub, ss, v) && HoldsAddresses(stub, ss, out, v)
  }

  lemma GraftedIs(stub: Bytes, ss: seq<Section>, out: Bytes)
    requires IsStub(stub) && Grafted(stub, ss) == Ok(out)
    ensures IsGraftOf(stub, ss, out)
  {
    GraftsIff(stub, ss);
    var pe := Parse(stub).value;
    ImageIsGraft(stub, pe, ss, FirstVma(stub, pe));
    AddressesAre(stub, pe, ss);
    ImageHoldsAddresses(stub, pe, ss, FirstVma(stub, pe));
  }
}
