/** Reading a PE32+ image: its headers, its section table, and what grafting needs to know of them. */
module PeImage {
  import opened Bytes
  import opened Wrappers
  import opened Alignment

  const HEADER_SIZE := 40
  const CHARACTERISTICS := 0x4000_0040  // IMAGE_SCN_CNT_INITIALIZED_DATA | IMAGE_SCN_MEM_READ

  /** `OutOfBounds` stands for a slice index panic; the others are the returned errors. */
  datatype PeError =
    | NotMz | BadSignature | NotPe32Plus | TableOutOfBounds
    | NoHeaderRoom | NameTooLong | TooManySections | Exceeds4GiB
    | OutOfBounds

  datatype PeView = PeView(
    peOff: nat, optOff: nat, sectTable: nat, numSections: nat,
    sectionAlign: nat, fileAlign: nat, sizeOfHeaders: nat)

  function Parse(b: Bytes): (r: Result<PeView, PeError>)
    ensures r.Ok? ==>
      && r.value.optOff == r.value.peOff + 24
      && r.value.optOff + 64 <= |b|
      && TableEnd(r.value) <= |b|
  {
    if |b| <= 0x40 || b[0] != 0x4D || b[1] != 0x5A then Err(NotMz)
    else
      var peOff := Rd32(b, 0x3c);
      if peOff + 24 > |b| || !IsPeSignature(b, peOff) then Err(BadSignature)
      else
        var numSections, sizeOpt, optOff := Rd16(b, peOff + 6), Rd16(b, peOff + 20), peOff + 24;
        if optOff + 2 > |b| then Err(OutOfBounds)
        else if Rd16(b, optOff) != 0x20b then Err(NotPe32Plus)
        else if optOff + 64 > |b| then Err(OutOfBounds)
        else
          var sectTable := optOff + sizeOpt;
          if sectTable + 40 * numSections > |b| then Err(TableOutOfBounds)
          else Ok(PeView(peOff, optOff, sectTable, numSections,
                         Rd32(b, optOff + 32), Rd32(b, optOff + 36), Rd32(b, optOff + 60)))
  }

  predicate IsPeSignature(b: Bytes, off: nat)
    requires off + 4 <= |b|
  {
    b[off] == 0x50 && b[off + 1] == 0x45 && b[off + 2] == 0 && b[off + 3] == 0
  }

  function TableEnd(pe: PeView): nat {
    Slot(pe, pe.numSections)
  }

  /** File offset of the `i`-th section header. */
  function Slot(pe: PeView, i: nat): nat {
    pe.sectTable + 40 * i
  }

  function VirtualSize(b: Bytes, sh: nat): nat
    requires sh + HEADER_SIZE <= |b|
  {
    Rd32(b, sh + 8)
  }

  function VirtualAddress(b: Bytes, sh: nat): nat
    requires sh + HEADER_SIZE <= |b|
  {
    Rd32(b, sh + 12)
  }

  function RawSize(b: Bytes, sh: nat): nat
    requires sh + HEADER_SIZE <= |b|
  {
    Rd32(b, sh + 16)
  }

  function RawPointer(b: Bytes, sh: nat): nat
    requires sh + HEADER_SIZE <= |b|
  {
    Rd32(b, sh + 20)
  }

  function Max(x: nat, y: nat): nat {
    if x < y then y else x
  }

  function Min(x: nat, y: nat): nat {
    if x < y then x else y
  }

  /** End of the address range a section occupies: the larger of its virtual and raw size counts. */
  function VirtualEnd(b: Bytes, sh: nat): nat
    requires sh + HEADER_SIZE <= |b|
  {
    VirtualAddress(b, sh) + Max(VirtualSize(b, sh), RawSize(b, sh))
  }

  /** The highest address end over the first `n` sections. */
  function MaxVaEnd(b: Bytes, pe: PeView, n: nat): nat
    requires Slot(pe, n) <= |b|
  {
    if n == 0 then 0 else Max(MaxVaEnd(b, pe, n - 1), VirtualEnd(b, Slot(pe, n - 1)))
  }

  /** The lowest non-zero raw pointer over the first `n` sections, `u64::MAX` when there is none. */
  function MinRawPointer(b: Bytes, pe: PeView, n: nat): nat
    requires Slot(pe, n) <= |b|
  {
    if n == 0 then 0xFFFF_FFFF_FFFF_FFFF
    else
      var p := RawPointer(b, Slot(pe, n - 1));
      if p > 0 then Min(MinRawPointer(b, pe, n - 1), p) else MinRawPointer(b, pe, n - 1)
  }

  /** Where the header area ends: new headers must stay below this. */
  function HeaderCeiling(b: Bytes, pe: PeView): nat
    requires TableEnd(pe) <= |b|
  {
    Min(pe.sizeOfHeaders, MinRawPointer(b, pe, pe.numSections))
  }

  /**
    What the Microsoft PE Format promises of a stub and the code relies on without checking it all:
    power-of-two alignments, a section table behind a full optional header, and a header area that
    lies inside the file.
   */
  predicate WellFormedStub(b: Bytes) {
    match Parse(b)
    case Err(_) => false
    case Ok(pe) =>
      && IsPow2(pe.fileAlign) && IsPow2(pe.sectionAlign) && pe.fileAlign <= pe.sectionAlign
      && pe.peOff >= 0x40
      && pe.optOff + 112 <= pe.sectTable
      && HeaderCeiling(b, pe) <= |b|
  }

  /** The bytes that grafting rewrites in the fixed headers: section count, SizeOfImage, CheckSum. */
  predicate IsPatched(pe: PeView, k: nat) {
    || pe.peOff + 6 <= k < pe.peOff + 8
    || pe.optOff + 56 <= k < pe.optOff + 60
    || pe.optOff + 64 <= k < pe.optOff + 68
  }

  /** `b` and `c` agree on the bytes below `end` that grafting does not rewrite. */
  ghost predicate AgreeBelow(b: Bytes, c: Bytes, pe: PeView, end: nat)
    requires end <= |b| && end <= |c|
  {
    forall k: nat :: k < end && !IsPatched(pe, k) ==> c[k] == b[k]
  }

  /** Parsing depends on the unpatched fixed header fields and the section count alone. */
  lemma ParseFrame(b: Bytes, c: Bytes, n: nat)
    requires Parse(b).Ok?
    requires var pe := Parse(b).value;
      && pe.peOff >= 0x40 && pe.optOff + 68 <= pe.sectTable
      && |b| <= |c| && n <= U16_MAX && Slot(pe, n) <= |c|
      && Rd16(c, pe.peOff + 6) == n
      && AgreeBelow(b, c, pe, pe.sectTable)
    ensures Parse(c) == Ok(Parse(b).value.(numSections := n))
  {
    var pe := Parse(b).value;
    ReadsAgree(c, b, 0x3c, 4);
    ReadsAgree(c, b, pe.peOff + 20, 2);
    ReadsAgree(c, b, pe.optOff, 2);
    ReadsAgree(c, b, pe.optOff + 32, 4);
    ReadsAgree(c, b, pe.optOff + 36, 4);
    ReadsAgree(c, b, pe.optOff + 60, 4);
    ParseReads(b, c, n);
  }

  lemma ParseReads(b: Bytes, c: Bytes, n: nat)
    requires Parse(b).Ok? && |b| <= |c|
    requires var pe := Parse(b).value;
      && Slot(pe, n) <= |c|
      && c[0] == b[0] && c[1] == b[1] && Rd32(c, 0x3c) == Rd32(b, 0x3c)
      && IsPeSignature(c, pe.peOff)
      && Rd16(c, pe.peOff + 6) == n && Rd16(c, pe.peOff + 20) == Rd16(b, pe.peOff + 20)
      && Rd16(c, pe.optOff) == Rd16(b, pe.optOff)
      && Rd32(c, pe.optOff + 32) == Rd32(b, pe.optOff + 32)
      && Rd32(c, pe.optOff + 36) == Rd32(b, pe.optOff + 36)
      && Rd32(c, pe.optOff + 60) == Rd32(b, pe.optOff + 60)
    ensures Parse(c) == Ok(Parse(b).value.(numSections := n))
  {}

  /** Equal header bytes hold equal fields. */
  lemma HeaderFrame(b: Bytes, c: Bytes, sh: nat)
    requires sh + HEADER_SIZE <= |b| && sh + HEADER_SIZE <= |c|
    requires forall k :: sh <= k < sh + HEADER_SIZE ==> b[k] == c[k]
    ensures VirtualSize(b, sh) == VirtualSize(c, sh) && VirtualAddress(b, sh) == VirtualAddress(c, sh)
    ensures RawSize(b, sh) == RawSize(c, sh) && RawPointer(b, sh) == RawPointer(c, sh)
  {
    ReadsAgree(b, c, sh + 8, 4);
    ReadsAgree(b, c, sh + 12, 4);
    ReadsAgree(b, c, sh + 16, 4);
    ReadsAgree(b, c, sh + 20, 4);
  }

  /** The two scans depend on the scanned headers only. */
  lemma {:induction false} ScanFrame(b: Bytes, pe: PeView, c: Bytes, pe': PeView, n: nat)
    requires pe.sectTable == pe'.sectTable && Slot(pe, n) <= |b| && Slot(pe, n) <= |c|
    requires forall k :: pe.sectTable <= k < Slot(pe, n) ==> b[k] == c[k]
    ensures MaxVaEnd(b, pe, n) == MaxVaEnd(c, pe', n)
    ensures MinRawPointer(b, pe, n) == MinRawPointer(c, pe', n)
  {
    if n > 0 {
      ScanFrame(b, pe, c, pe', n - 1);
      HeaderFrame(b, c, Slot(pe, n - 1));
    }
  }

  /** The first scan is an upper bound over the sections, and some section attains it. */
  lemma {:induction false} MaxVaEndMeaning(b: Bytes, pe: PeView, n: nat, i: nat) returns (best: nat)
    requires Slot(pe, n) <= |b| && i < n
    ensures VirtualEnd(b, Slot(pe, i)) <= MaxVaEnd(b, pe, n)
    ensures best < n && VirtualEnd(b, Slot(pe, best)) == MaxVaEnd(b, pe, n)
  {
    if n == 1 {
      best := 0;
    } else {
      best := MaxVaEndMeaning(b, pe, n - 1, if i < n - 1 then i else 0);
      if VirtualEnd(b, Slot(pe, n - 1)) == MaxVaEnd(b, pe, n) {
        best := n - 1;
      }
    }
  }

  /** The second scan is a lower bound over the sections that have raw data, and one of them attains it. */
  lemma {:induction false} MinRawPointerMeaning(b: Bytes, pe: PeView, n: nat, i: nat) returns (least: nat)
    requires Slot(pe, n) <= |b| && i < n && RawPointer(b, Slot(pe, i)) > 0
    ensures MinRawPointer(b, pe, n) <= RawPointer(b, Slot(pe, i))
    ensures least < n && RawPointer(b, Slot(pe, least)) == MinRawPointer(b, pe, n) > 0
  {
    if i < n - 1 {
      least := MinRawPointerMeaning(b, pe, n - 1, i);
    } else if exists j :: 0 <= j < n - 1 && RawPointer(b, Slot(pe, j)) > 0 {
      var j :| 0 <= j < n - 1 && RawPointer(b, Slot(pe, j)) > 0;
      least := MinRawPointerMeaning(b, pe, n - 1, j);
    } else {
      NoRawPointer(b, pe, n - 1);
      least := n - 1;
    }
    if RawPointer(b, Slot(pe, n - 1)) == MinRawPointer(b, pe, n) {
      least := n - 1;
    }
  }

  /** Without raw data anywhere the scan keeps the largest 64-bit number. */
  lemma {:induction false} NoRawPointer(b: Bytes, pe: PeView, n: nat)
    requires Slot(pe, n) <= |b| && forall j :: 0 <= j < n ==> RawPointer(b, Slot(pe, j)) == 0
    ensures MinRawPointer(b, pe, n) == 0xFFFF_FFFF_FFFF_FFFF
  {
    if n > 0 {
      NoRawPointer(b, pe, n - 1);
    }
  }
}
