/**
  The PE32+ file byte by byte, as the sections "MS-DOS Stub", "COFF File Header", "Optional Header (Image Only)" and
  "Section Table (Section Headers)" of the Microsoft PE Format lay it out, without reference to how the code reads it.
 */
module PeFormat {
  import opened Bytes
  import opened Wrappers
  import opened Alignment
  import opened PeImage
  import opened Graft
  import opened GraftTheorems

  // ---- Integers, written out ----

  function U16At(b: Bytes, off: nat): nat
    requires off + 2 <= |b|
  {
    b[off] as int + 0x100 * b[off + 1] as int
  }

  function U32At(b: Bytes, off: nat): nat
    requires off + 4 <= |b|
  {
    b[off] as int + 0x100 * b[off + 1] as int + 0x1_0000 * b[off + 2] as int + 0x100_0000 * b[off + 3] as int
  }

  lemma {:induction false} Reads16(b: Bytes, off: nat)
    requires off + 2 <= |b|
    ensures Rd16(b, off) == U16At(b, off)
  {
    assert LeInt(b, off, 2) == LeStep(b, off, 2) && LeInt(b, off + 1, 1) == LeStep(b, off + 1, 1);
    assert LeInt(b, off + 2, 0) == LeStep(b, off + 2, 0);
  }

  lemma {:induction false} Reads32(b: Bytes, off: nat)
    requires off + 4 <= |b|
    ensures Rd32(b, off) == U32At(b, off)
  {
    assert LeInt(b, off, 4) == LeStep(b, off, 4) && LeInt(b, off + 1, 3) == LeStep(b, off + 1, 3);
    assert LeInt(b, off + 2, 2) == LeStep(b, off + 2, 2) && LeInt(b, off + 3, 1) == LeStep(b, off + 3, 1);
    assert LeInt(b, off + 4, 0) == LeStep(b, off + 4, 0);
  }

  // ---- What parsing reads ----

  predicate HasMz(b: Bytes) {
    |b| > 0x40 && b[0] == 0x4D && b[1] == 0x5A
  }

  /** The offset of "PE\0\0". */
  function PeAt(b: Bytes): nat
    requires HasMz(b)
  {
    U32At(b, 0x3c)
  }

  predicate HasSignature(b: Bytes)
    requires HasMz(b)
  {
    var e := PeAt(b);
    e + 24 <= |b| && b[e] == 0x50 && b[e + 1] == 0x45 && b[e + 2] == 0 && b[e + 3] == 0
  }

  function CountIn(b: Bytes): nat
    requires HasMz(b) && HasSignature(b)
  {
    U16At(b, PeAt(b) + 6)
  }

  /** The section table, behind the optional header and its size field's worth of bytes. */
  function TableIn(b: Bytes): nat
    requires HasMz(b) && HasSignature(b)
  {
    PeAt(b) + 24 + U16At(b, PeAt(b) + 20)
  }

  predicate HasHeaders(b: Bytes) {
    && HasMz(b) && HasSignature(b) && PeAt(b) + 88 <= |b| && U16At(b, PeAt(b) + 24) == 0x20b
    && TableIn(b) + 40 * CountIn(b) <= |b|
  }

  function SectionAlignment(b: Bytes): nat
    requires HasHeaders(b)
  {
    U32At(b, PeAt(b) + 24 + 32)
  }

  function FileAlignment(b: Bytes): nat
    requires HasHeaders(b)
  {
    U32At(b, PeAt(b) + 24 + 36)
  }

  function SizeOfHeaders(b: Bytes): nat
    requires HasHeaders(b)
  {
    U32At(b, PeAt(b) + 24 + 60)
  }

  lemma PrefixReads(b: Bytes)
    requires HasMz(b)
    ensures Rd32(b, 0x3c) == PeAt(b)
    ensures HasSignature(b) <==> PeAt(b) + 24 <= |b| && IsPeSignature(b, PeAt(b))
    ensures HasSignature(b) ==> Rd16(b, PeAt(b) + 6) == CountIn(b) && Rd16(b, PeAt(b) + 20) == TableIn(b) - PeAt(b) - 24
    ensures HasSignature(b) && PeAt(b) + 26 <= |b| ==> Rd16(b, PeAt(b) + 24) == U16At(b, PeAt(b) + 24)
  {
    Reads32(b, 0x3c);
    if HasSignature(b) {
      Reads16(b, PeAt(b) + 6);
      Reads16(b, PeAt(b) + 20);
      if PeAt(b) + 26 <= |b| {
        Reads16(b, PeAt(b) + 24);
      }
    }
  }

  lemma HeaderReads(b: Bytes)
    requires HasHeaders(b)
    ensures Rd32(b, PeAt(b) + 24 + 32) == SectionAlignment(b) && Rd32(b, PeAt(b) + 24 + 36) == FileAlignment(b)
    ensures Rd32(b, PeAt(b) + 24 + 60) == SizeOfHeaders(b)
  {
    Reads32(b, PeAt(b) + 24 + 32);
    Reads32(b, PeAt(b) + 24 + 36);
    Reads32(b, PeAt(b) + 24 + 60);
  }

  /** Parsing succeeds exactly on a file with these headers, and reads each field where the format has it. */
  lemma ParseIff(b: Bytes)
    ensures Parse(b).Ok? <==> HasHeaders(b)
    ensures HasHeaders(b) ==>
      Parse(b) == Ok(PeView(PeAt(b), PeAt(b) + 24, TableIn(b), CountIn(b),
                            SectionAlignment(b), FileAlignment(b), SizeOfHeaders(b)))
  {
    if HasMz(b) {
      PrefixReads(b);
    }
    if HasHeaders(b) {
      HeaderReads(b);
    }
  }

  /** The errors, in the order of the checks; what is shorter than its headers is a slice panic. */
  lemma ParseFailsIff(b: Bytes)
    ensures Parse(b) == Err(NotMz) <==> !HasMz(b)
    ensures Parse(b) == Err(BadSignature) <==> HasMz(b) && !HasSignature(b)
    ensures Parse(b) == Err(NotPe32Plus)
      <==> HasMz(b) && HasSignature(b) && PeAt(b) + 26 <= |b| && U16At(b, PeAt(b) + 24) != 0x20b
    ensures Parse(b) == Err(OutOfBounds)
      <==> && HasMz(b) && HasSignature(b) && PeAt(b) + 88 > |b|
           && (PeAt(b) + 26 <= |b| ==> U16At(b, PeAt(b) + 24) == 0x20b)
    ensures Parse(b) == Err(TableOutOfBounds)
      <==> && HasMz(b) && HasSignature(b) && PeAt(b) + 88 <= |b| && U16At(b, PeAt(b) + 24) == 0x20b
           && TableIn(b) + 40 * CountIn(b) > |b|
  {
    if HasMz(b) {
      PrefixReads(b);
    }
  }

  // ---- A header written down ----

  /** The four and the two bytes of a number, least significant first. */
  function Four(v: nat): Bytes {
    [v % 0x100, v / 0x100 % 0x100, v / 0x1_0000 % 0x100, v / 0x100_0000 % 0x100]
  }

  function Two(v: nat): Bytes {
    [v % 0x100, v / 0x100 % 0x100]
  }

  predicate At(b: Bytes, off: nat, part: Bytes) {
    off + |part| <= |b| && b[off..off + |part|] == part
  }

  lemma FourReads(b: Bytes, off: nat, v: nat)
    requires v <= 0xFFFF_FFFF && At(b, off, Four(v))
    ensures U32At(b, off) == v
  {
    var part := b[off..off + 4];
    assert part[0] == b[off] && part[1] == b[off + 1] && part[2] == b[off + 2] && part[3] == b[off + 3];
    assert v == v % 0x100 + 0x100 * (v / 0x100);
    assert v / 0x100 == v / 0x100 % 0x100 + 0x100 * (v / 0x1_0000);
    assert v / 0x1_0000 == v / 0x1_0000 % 0x100 + 0x100 * (v / 0x100_0000);
  }

  lemma TwoReads(b: Bytes, off: nat, v: nat)
    requires v <= 0xFFFF && At(b, off, Two(v))
    ensures U16At(b, off) == v
  {
    var part := b[off..off + 2];
    assert part[0] == b[off] && part[1] == b[off + 1];
  }

  /** A file that holds these header fields at their offsets, whatever else it holds. */
  predicate WrittenDown(b: Bytes, e: nat, count: nat, size: nat, sectionAlign: nat, fileAlign: nat, headers: nat) {
    && |b| > 0x40 && At(b, 0, [0x4D, 0x5A]) && At(b, 0x3c, Four(e)) && At(b, e, [0x50, 0x45, 0, 0])
    && At(b, e + 6, Two(count)) && At(b, e + 20, Two(size)) && At(b, e + 24, [0x0B, 0x02])
    && At(b, e + 56, Four(sectionAlign)) && At(b, e + 60, Four(fileAlign)) && At(b, e + 84, Four(headers))
    && e + 24 + size + 40 * count <= |b|
  }

  lemma WrittenMarks(b: Bytes, e: nat)
    requires e <= 0xFFFF_FFFF && |b| > 0x40 && e + 26 <= |b|
    requires At(b, 0, [0x4D, 0x5A]) && At(b, 0x3c, Four(e)) && At(b, e, [0x50, 0x45, 0, 0])
    requires At(b, e + 24, [0x0B, 0x02])
    ensures HasMz(b) && PeAt(b) == e && HasSignature(b) && U16At(b, e + 24) == 0x20b
  {
    assert b[0..2][0] == b[0] && b[0..2][1] == b[1];
    FourReads(b, 0x3c, e);
    var sig := b[e..e + 4];
    assert sig[0] == b[e] && sig[1] == b[e + 1] && sig[2] == b[e + 2] && sig[3] == b[e + 3];
    assert b[e + 24..e + 26][0] == b[e + 24] && b[e + 24..e + 26][1] == b[e + 25];
  }

  lemma WrittenFields(
      b: Bytes, e: nat, count: nat, size: nat, sectionAlign: nat, fileAlign: nat, headers: nat)
    requires e <= 0xFFFF_FFFF && count <= 0xFFFF && size <= 0xFFFF
    requires sectionAlign <= 0xFFFF_FFFF && fileAlign <= 0xFFFF_FFFF && headers <= 0xFFFF_FFFF
    requires WrittenDown(b, e, count, size, sectionAlign, fileAlign, headers)
    ensures e + 88 <= |b| && U16At(b, e + 6) == count && U16At(b, e + 20) == size
    ensures U32At(b, e + 24 + 32) == sectionAlign && U32At(b, e + 24 + 36) == fileAlign
    ensures U32At(b, e + 24 + 60) == headers
  {
    TwoReads(b, e + 6, count);
    TwoReads(b, e + 20, size);
    FourReads(b, e + 24 + 32, sectionAlign);
    FourReads(b, e + 24 + 36, fileAlign);
    FourReads(b, e + 24 + 60, headers);
  }

  lemma WrittenHeaders(
      b: Bytes, e: nat, count: nat, size: nat, sectionAlign: nat, fileAlign: nat, headers: nat)
    requires e <= 0xFFFF_FFFF && WrittenDown(b, e, count, size, sectionAlign, fileAlign, headers)
    requires e + 88 <= |b| && U16At(b, e + 6) == count && U16At(b, e + 20) == size
    ensures HasHeaders(b) && PeAt(b) == e
  {
    WrittenMarks(b, e);
  }

  lemma FieldsParse(b: Bytes, e: nat, count: nat, size: nat, sectionAlign: nat, fileAlign: nat, headers: nat)
    requires HasHeaders(b) && PeAt(b) == e && CountIn(b) == count && TableIn(b) == e + 24 + size
    requires SectionAlignment(b) == sectionAlign && FileAlignment(b) == fileAlign && SizeOfHeaders(b) == headers
    ensures Parse(b) == Ok(PeView(e, e + 24, e + 24 + size, count, sectionAlign, fileAlign, headers))
  {
    ParseIff(b);
  }

  /** Such a file parses to exactly these fields. */
  lemma WrittenParses(b: Bytes, e: nat, count: nat, size: nat, sectionAlign: nat, fileAlign: nat, headers: nat)
    requires e <= 0xFFFF_FFFF && count <= 0xFFFF && size <= 0xFFFF
    requires sectionAlign <= 0xFFFF_FFFF && fileAlign <= 0xFFFF_FFFF && headers <= 0xFFFF_FFFF
    requires WrittenDown(b, e, count, size, sectionAlign, fileAlign, headers)
    ensures Parse(b) == Ok(PeView(e, e + 24, e + 24 + size, count, sectionAlign, fileAlign, headers))
  {
    WrittenFields(b, e, count, size, sectionAlign, fileAlign, headers);
    WrittenHeaders(b, e, count, size, sectionAlign, fileAlign, headers);
    FieldsParse(b, e, count, size, sectionAlign, fileAlign, headers);
  }
}
