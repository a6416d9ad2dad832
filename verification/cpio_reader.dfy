/** A newc reader written from the format, and the proof that it inverts the writer. */
module CpioReader {
  import opened Arithmetic
  import opened Bytes
  import opened Wrappers
  import opened Cpio

  datatype Record = Record(
    ino: nat, mode: nat, uid: nat, gid: nat, nlink: nat, mtime: nat, devmajor: nat, devminor: nat,
    rdevmajor: nat, rdevminor: nat, check: nat, name: Bytes, data: Bytes)

  datatype Parsed = Parsed(record: Record, next: nat)

  // ---- Reading ----

  function HexValue(c: Byte): Option<nat> {
    if 0x30 <= c <= 0x39 then Some((c - 0x30) as nat)
    else if 0x61 <= c <= 0x66 then Some((c - 0x61 + 10) as nat)
    else if 0x41 <= c <= 0x46 then Some((c - 0x41 + 10) as nat)
    else None
  }

  /** The number spelled by the `n` hex digits at `off`, most significant first. */
  function UnHex(b: Bytes, off: nat, n: nat): Option<nat>
    requires off + n <= |b|
    decreases |b| - off, n, 1
  {
    UnHexStep(b, off, n)
  }

  function UnHexStep(b: Bytes, off: nat, n: nat): Option<nat>
    requires off + n <= |b|
    decreases |b| - off, n, 0
  {
    if n == 0 then Some(0)
    else
      match (UnHex(b, off, n - 1), HexValue(b[off + n - 1]))
      case (Some(high), Some(low)) => Some(16 * high + low)
      case _ => None
  }

  function Field(b: Bytes, pos: nat, i: nat): Option<nat>
    requires i < FIELDS && pos + HEADER_SIZE <= |b|
  {
    UnHex(b, pos + 6 + 8 * i, 8)
  }

  /** "070701" */
  predicate HasMagic(b: Bytes, pos: nat)
    requires pos + HEADER_SIZE <= |b|
  {
    && b[pos] == 0x30 && b[pos + 1] == 0x37 && b[pos + 2] == 0x30 && b[pos + 3] == 0x37
    && b[pos + 4] == 0x30 && b[pos + 5] == 0x31
  }

  /** The name that ends an archive. */
  predicate EndsArchive(name: Bytes) {
    name == Ascii("TRAILER!!!")
  }

  lemma TrailerEnds(name: Bytes)
    ensures EndsArchive(name) <==> name == TrailerName()
  {
    assert Ascii("TRAILER!!!") == TrailerName();
  }

  predicate FieldsReadable(b: Bytes, pos: nat)
    requires pos + HEADER_SIZE <= |b|
  {
    forall i :: 0 <= i < FIELDS ==> Field(b, pos, i).Some?
  }

  function RoundUp4(n: nat): nat {
    n + Padding(n)
  }

  function FieldsAt(b: Bytes, pos: nat): (f: seq<nat>)
    requires pos + HEADER_SIZE <= |b| && FieldsReadable(b, pos)
    ensures |f| == FIELDS
  {
    seq(FIELDS, i requires 0 <= i < FIELDS => Field(b, pos, i).value)
  }

  function FromFields(f: seq<nat>, name: Bytes, data: Bytes): Record
    requires |f| == FIELDS
  {
    Record(f[0], f[1], f[2], f[3], f[4], f[5], f[7], f[8], f[9], f[10], f[12], name, data)
  }

  /** One header, name and data at `pos`; `next` is where the following header starts. */
  function ReadRecord(b: Bytes, pos: nat): (r: Option<Parsed>)
    ensures r.Some? ==> pos < r.value.next <= |b|
  {
    if pos + HEADER_SIZE > |b| || !HasMagic(b, pos) || !FieldsReadable(b, pos) then None
    else ReadBody(b, pos, FieldsAt(b, pos))
  }

  function ReadBody(b: Bytes, pos: nat, f: seq<nat>): (r: Option<Parsed>)
    requires pos + HEADER_SIZE <= |b| && |f| == FIELDS
    ensures r.Some? ==> pos < r.value.next <= |b|
  {
    var nameEnd := pos + HEADER_SIZE + f[11];
    var dataPos := RoundUp4(nameEnd);
    var next := RoundUp4(dataPos + f[6]);
    if f[11] == 0 || next > |b| || b[nameEnd - 1] != 0 then None
    else Some(Parsed(FromFields(f, b[pos + HEADER_SIZE..nameEnd - 1], b[dataPos..dataPos + f[6]]), next))
  }

  datatype Listing = Listing(records: seq<Record>, end: nat)

  function Prepend(r: Record, rest: Option<Listing>): Option<Listing> {
    match rest
    case None => None
    case Some(l) => Some(Listing([r] + l.records, l.end))
  }

  /** Records up to the first one named TRAILER!!!, and where that one ends. */
  function ReadArchive(b: Bytes, pos: nat): (r: Option<Listing>)
    requires pos <= |b|
    ensures r.Some? ==> pos < r.value.end <= |b|
    decreases |b| - pos, 1
  {
    ReadStep(b, pos)
  }

  function ReadStep(b: Bytes, pos: nat): (r: Option<Listing>)
    requires pos <= |b|
    ensures r.Some? ==> pos < r.value.end <= |b|
    decreases |b| - pos, 0
  {
    match ReadRecord(b, pos)
    case None => None
    case Some(p) =>
      if EndsArchive(p.record.name) then Some(Listing([], p.next))
      else Prepend(p.record, ReadArchive(b, p.next))
  }

  // ---- Hex round trip ----

  function Pow16(n: nat): (p: nat)
    ensures p > 0
  {
    if n == 0 then 1 else 16 * Pow16(n - 1)
  }

  lemma Pow16Of8()
    ensures Pow16(8) == 0x1_0000_0000
  {
    assert Pow16(2) == 0x100;
    assert Pow16(4) == 0x1_0000;
    assert Pow16(6) == 0x100_0000;
  }

  lemma {:induction false} HexRoundTrip(v: nat, b: Bytes, off: nat, n: nat)
    requires off + n <= |b|
    requires forall k :: off <= k < off + n ==> b[k] == HexChar(Nibble(v, off + n - 1 - k))
    ensures UnHex(b, off, n) == Some(v % Pow16(n))
    decreases n
  {
    assert UnHex(b, off, n) == UnHexStep(b, off, n);
    if n > 0 {
      forall k | off <= k < off + n - 1
        ensures b[k] == HexChar(Nibble(v / 16, off + (n - 1) - 1 - k))
      {
        assert Nibble(v, off + n - 1 - k) == Nibble(v / 16, off + n - 2 - k);
      }
      HexRoundTrip(v / 16, b, off, n - 1);
      assert b[off + n - 1] == HexChar(v % 16);
      SplitMod(v, 16, Pow16(n - 1));
    }
  }

  // ---- One entry ----

  predicate FitsU32(e: Entry) {
    |e.name| + 1 <= U32_MAX && |e.data| <= U32_MAX
  }

  function DataOffset(e: Entry): nat {
    RoundUp4(HEADER_SIZE + |e.name| + 1)
  }

  function EntryLength(e: Entry): nat {
    RoundUp4(DataOffset(e) + |e.data|)
  }

  const PARTS := 7

  /** Magic, fields, name, NUL, padding, data, padding. */
  function Part(e: Entry, ino: U32, i: nat): Bytes
    requires i < PARTS
  {
    if i == 0 then Magic()
    else if i == 1 then HexFields(HeaderFields(e, ino), FIELDS)
    else if i == 2 then e.name
    else if i == 3 then [0]
    else if i == 4 then Zeros(Padding(HEADER_SIZE + |e.name| + 1))
    else if i == 5 then e.data
    else Zeros(Padding(DataOffset(e) + |e.data|))
  }

  /** The entry's own bytes, which start and end on a four-byte boundary. */
  function EntryBytes(e: Entry, ino: U32): Bytes {
    PartsTo(e, ino, PARTS)
  }

  function PartsTo(e: Entry, ino: U32, n: nat): Bytes
    requires n <= PARTS
    decreases e, n, 1
  {
    PartsStep(e, ino, n)
  }

  function PartsStep(e: Entry, ino: U32, n: nat): Bytes
    requires n <= PARTS
    decreases e, n, 0
  {
    if n == 0 then [] else PartsTo(e, ino, n - 1) + Part(e, ino, n - 1)
  }

  function Parts(e: Entry, ino: U32): (parts: seq<Bytes>)
    ensures |parts| == PARTS
  {
    seq(PARTS, i requires 0 <= i < PARTS => Part(e, ino, i))
  }

  lemma {:induction false} PartsAreConcat(e: Entry, ino: U32, n: nat)
    requires n <= PARTS
    ensures PartsTo(e, ino, n) == Concat(Parts(e, ino), n)
  {
    assert PartsTo(e, ino, n) == PartsStep(e, ino, n) && Concat(Parts(e, ino), n) == ConcatStep(Parts(e, ino), n);
    if n > 0 {
      PartsAreConcat(e, ino, n - 1);
    }
  }

  lemma PartOffsets(e: Entry, ino: U32)
    ensures var parts := Parts(e, ino);
      && PartOffset(parts, 0) == 0 && PartOffset(parts, 1) == 6
      && PartOffset(parts, 2) == HEADER_SIZE && PartOffset(parts, 3) == HEADER_SIZE + |e.name|
      && PartOffset(parts, 5) == DataOffset(e) && PartOffset(parts, 7) == EntryLength(e)
  {
    var parts := Parts(e, ino);
    assert PartOffset(parts, 0) == PartOffsetStep(parts, 0) == 0;
    assert PartOffset(parts, 1) == PartOffsetStep(parts, 1) == 6;
    assert PartOffset(parts, 2) == PartOffsetStep(parts, 2) == HEADER_SIZE;
    assert PartOffset(parts, 3) == PartOffsetStep(parts, 3) == HEADER_SIZE + |e.name|;
    assert PartOffset(parts, 4) == PartOffsetStep(parts, 4) == HEADER_SIZE + |e.name| + 1;
    assert PartOffset(parts, 5) == PartOffsetStep(parts, 5) == DataOffset(e);
    assert PartOffset(parts, 6) == PartOffsetStep(parts, 6) == DataOffset(e) + |e.data|;
    assert PartOffset(parts, 7) == PartOffsetStep(parts, 7) == EntryLength(e);
  }

  lemma EntryUnfolds(e: Entry, ino: U32)
    ensures EntryBytes(e, ino)
      == PadTo4(PadTo4(Magic() + HexFields(HeaderFields(e, ino), FIELDS) + e.name + [0]) + e.data)
    ensures |EntryBytes(e, ino)| == EntryLength(e) && EntryLength(e) % 4 == 0
  {
    PartsAreConcat(e, ino, PARTS);
    ConcatLength(Parts(e, ino), PARTS);
    PartOffsets(e, ino);
    var head := Magic() + HexFields(HeaderFields(e, ino), FIELDS) + e.name + [0];
    assert PartsTo(e, ino, 0) == PartsStep(e, ino, 0) == [];
    assert PartsTo(e, ino, 1) == PartsStep(e, ino, 1) == Magic();
    assert PartsTo(e, ino, 2) == PartsStep(e, ino, 2) == Magic() + HexFields(HeaderFields(e, ino), FIELDS);
    assert PartsTo(e, ino, 3) == PartsStep(e, ino, 3);
    assert PartsTo(e, ino, 4) == PartsStep(e, ino, 4) == head;
    assert PartsTo(e, ino, 5) == PartsStep(e, ino, 5) == PadTo4(head);
    assert PartsTo(e, ino, 6) == PartsStep(e, ino, 6);
    assert PartsTo(e, ino, 7) == PartsStep(e, ino, 7);
  }

  /** On a four-byte boundary writing an entry appends its own bytes. */
  lemma WrittenAppends(out: Bytes, e: Entry, ino: U32)
    requires |out| % 4 == 0
    ensures Written(out, e, ino) == out + EntryBytes(e, ino)
    ensures |EntryBytes(e, ino)| == EntryLength(e) && EntryLength(e) % 4 == 0
  {
    EntryUnfolds(e, ino);
    var head := Magic() + HexFields(HeaderFields(e, ino), FIELDS) + e.name + [0];
    assert out + Magic() + HexFields(HeaderFields(e, ino), FIELDS) + e.name + [0] == out + head;
    PadAppends(out, head);
    PadAppends(out, PadTo4(head) + e.data);
    assert out + (PadTo4(head) + e.data) == out + PadTo4(head) + e.data;
  }

  lemma PadAppends(out: Bytes, b: Bytes)
    requires |out| % 4 == 0
    ensures PadTo4(out + b) == out + PadTo4(b)
  {
    assert Padding(|out + b|) == Padding(|b|);
  }

  /** `b` holds `part` at `pos`. */
  predicate HoldsAt(b: Bytes, pos: nat, part: Bytes) {
    pos + |part| <= |b| && b[pos..pos + |part|] == part
  }

  lemma {:induction false} HoldsConcat(b: Bytes, pos: nat, parts: seq<Bytes>, i: nat)
    requires HoldsAt(b, pos, Concat(parts, |parts|)) && i < |parts|
    ensures HoldsAt(b, pos + PartOffset(parts, i), parts[i])
  {
    ConcatIndex(parts, |parts|, i);
    var whole, off, n := Concat(parts, |parts|), PartOffset(parts, i), |parts[i]|;
    forall k | 0 <= k < n
      ensures b[pos + off..pos + off + n][k] == parts[i][k]
    {
      assert b[pos + off + k] == b[pos..pos + |whole|][off + k] == whole[off + k];
    }
  }

  function RecordOf(e: Entry, ino: nat): Record {
    Record(ino, e.mode, 0, 0, e.nlink, 0, 0, 0, e.rdevmajor, e.rdevminor, 0, e.name, e.data)
  }

  /** Character `c` of header field `i`. */
  lemma FieldChar(b: Bytes, pos: nat, fields: seq<U32>, i: nat, c: nat)
    requires |fields| == FIELDS && i < FIELDS && c < 8 && pos + HEADER_SIZE <= |b|
    requires HoldsAt(b, pos + 6, HexFields(fields, FIELDS))
    ensures b[pos + 6 + 8 * i + c] == HexChar(Nibble(fields[i], 7 - c))
  {
    var j := 8 * i + c;
    assert j / 8 == i && j % 8 == c;
    assert b[pos + 6 + j] == b[pos + 6..pos + 6 + 8 * FIELDS][j] == HexFields(fields, FIELDS)[j];
  }

  /** A header field reads back as the number it was written from. */
  lemma FieldRoundTrip(b: Bytes, pos: nat, fields: seq<U32>, i: nat)
    requires |fields| == FIELDS && i < FIELDS && pos + HEADER_SIZE <= |b|
    requires HoldsAt(b, pos + 6, HexFields(fields, FIELDS))
    ensures Field(b, pos, i) == Some(fields[i])
  {
    var off, v := pos + 6 + 8 * i, fields[i];
    forall k | off <= k < off + 8
      ensures b[k] == HexChar(Nibble(v, off + 8 - 1 - k))
    {
      FieldChar(b, pos, fields, i, k - off);
    }
    HexOfEight(b, off, v);
  }

  lemma {:induction false} HexOfEight(b: Bytes, off: nat, v: U32)
    requires off + 8 <= |b|
    requires forall k :: off <= k < off + 8 ==> b[k] == HexChar(Nibble(v, off + 8 - 1 - k))
    ensures UnHex(b, off, 8) == Some(v)
  {
    HexRoundTrip(v, b, off, 8);
    Pow16Of8();
  }

  /** Where the parts of a written entry stand in a buffer that holds it. */
  lemma EntryParts(b: Bytes, pos: nat, e: Entry, ino: U32)
    requires HoldsAt(b, pos, EntryBytes(e, ino))
    ensures pos + EntryLength(e) <= |b|
    ensures HoldsAt(b, pos, Magic())
    ensures HoldsAt(b, pos + 6, HexFields(HeaderFields(e, ino), FIELDS))
    ensures HoldsAt(b, pos + HEADER_SIZE, e.name)
    ensures HoldsAt(b, pos + HEADER_SIZE + |e.name|, [0])
    ensures HoldsAt(b, pos + DataOffset(e), e.data)
  {
    PartOffsets(e, ino);
    PartHeld(b, pos, e, ino, 0);
    PartHeld(b, pos, e, ino, 1);
    PartHeld(b, pos, e, ino, 2);
    PartHeld(b, pos, e, ino, 3);
    PartHeld(b, pos, e, ino, 5);
  }

  lemma {:induction false} PartHeld(b: Bytes, pos: nat, e: Entry, ino: U32, i: nat)
    requires HoldsAt(b, pos, EntryBytes(e, ino)) && i < PARTS
    ensures HoldsAt(b, pos + PartOffset(Parts(e, ino), i), Parts(e, ino)[i])
    ensures pos + PartOffset(Parts(e, ino), PARTS) <= |b|
  {
    var parts := Parts(e, ino);
    PartsAreConcat(e, ino, PARTS);
    ConcatLength(parts, PARTS);
    HoldsConcat(b, pos, parts, i);
  }

  lemma HeaderRoundTrip(b: Bytes, pos: nat, e: Entry, ino: U32)
    requires pos + HEADER_SIZE <= |b|
    requires HoldsAt(b, pos, Magic()) && HoldsAt(b, pos + 6, HexFields(HeaderFields(e, ino), FIELDS))
    ensures HasMagic(b, pos) && FieldsReadable(b, pos)
    ensures FieldsAt(b, pos) == HeaderFields(e, ino)
  {
    forall k | 0 <= k < 6
      ensures b[pos + k] == Magic()[k]
    {
      assert b[pos + k] == b[pos..pos + 6][k];
    }
    assert b[pos] == Magic()[0] && b[pos + 1] == Magic()[1] && b[pos + 2] == Magic()[2];
    assert b[pos + 3] == Magic()[3] && b[pos + 4] == Magic()[4] && b[pos + 5] == Magic()[5];
    forall i | 0 <= i < FIELDS
      ensures Field(b, pos, i) == Some(HeaderFields(e, ino)[i])
    {
      FieldRoundTrip(b, pos, HeaderFields(e, ino), i);
    }
  }

  /** A record read where an entry was written is that entry, and the next header follows it. */
  lemma EntryRoundTrip(b: Bytes, pos: nat, e: Entry, ino: U32)
    requires pos % 4 == 0 && FitsU32(e) && HoldsAt(b, pos, EntryBytes(e, ino))
    ensures ReadRecord(b, pos) == Some(Parsed(RecordOf(e, ino), pos + EntryLength(e)))
  {
    EntryParts(b, pos, e, ino);
    HeaderRoundTrip(b, pos, e, ino);
    BodyRoundTrip(b, pos, e, ino);
  }

  lemma BodyRoundTrip(b: Bytes, pos: nat, e: Entry, ino: U32)
    requires pos % 4 == 0 && FitsU32(e) && pos + EntryLength(e) <= |b|
    requires HoldsAt(b, pos + HEADER_SIZE, e.name) && HoldsAt(b, pos + HEADER_SIZE + |e.name|, [0])
    requires HoldsAt(b, pos + DataOffset(e), e.data)
    ensures ReadBody(b, pos, HeaderFields(e, ino)) == Some(Parsed(RecordOf(e, ino), pos + EntryLength(e)))
  {
    assert b[pos + HEADER_SIZE + |e.name|] == b[pos + HEADER_SIZE + |e.name|..pos + HEADER_SIZE + |e.name| + 1][0];
    RoundUpShift(pos, HEADER_SIZE + |e.name| + 1);
    RoundUpShift(pos, DataOffset(e) + |e.data|);
    FieldsMeaning(e, ino);
  }

  lemma FieldsMeaning(e: Entry, ino: U32)
    requires FitsU32(e)
    ensures HeaderFields(e, ino)[11] == |e.name| + 1 && HeaderFields(e, ino)[6] == |e.data|
    ensures FromFields(HeaderFields(e, ino), e.name, e.data) == RecordOf(e, ino)
  {}

  lemma RoundUpShift(pos: nat, n: nat)
    requires pos % 4 == 0
    ensures RoundUp4(pos + n) == pos + RoundUp4(n)
  {}

  // ---- Whole archives ----

  /** The bytes of the `i`-th header with its name and data; the trailer is number `|es|`. */
  function Chunk(es: seq<Entry>, i: nat): Bytes
    requires i <= |es|
  {
    if i < |es| then EntryBytes(es[i], Ino(i)) else EntryBytes(TrailerEntry(), 0)
  }

  function Chunks(es: seq<Entry>): (parts: seq<Bytes>)
    ensures |parts| == |es| + 1
  {
    seq(|es| + 1, i requires 0 <= i < |es| + 1 => Chunk(es, i))
  }

  /** Offset of the `i`-th header. */
  function Offset(es: seq<Entry>, i: nat): nat
    requires i <= |es| + 1
  {
    PartOffset(Chunks(es), i)
  }

  function ChunkLength(es: seq<Entry>, i: nat): nat
    requires i <= |es|
  {
    if i < |es| then EntryLength(es[i]) else EntryLength(TrailerEntry())
  }

  lemma ChunkLengths(es: seq<Entry>, i: nat)
    requires i <= |es|
    ensures |Chunks(es)[i]| == ChunkLength(es, i) && ChunkLength(es, i) % 4 == 0
  {
    if i < |es| {
      EntryUnfolds(es[i], Ino(i));
    } else {
      EntryUnfolds(TrailerEntry(), 0);
    }
  }

  lemma NextOffset(es: seq<Entry>, i: nat)
    requires i <= |es|
    ensures Offset(es, i + 1) == Offset(es, i) + |Chunks(es)[i]|
  {
    assert PartOffset(Chunks(es), i + 1) == PartOffsetStep(Chunks(es), i + 1);
  }

  lemma ChunkAligned(es: seq<Entry>, i: nat)
    requires i <= |es|
    ensures |Chunks(es)[i]| % 4 == 0
  {
    ChunkLengths(es, i);
  }

  /** Every header starts on a four-byte boundary. */
  lemma {:induction false} OffsetAligned(es: seq<Entry>, i: nat)
    requires i <= |es| + 1
    ensures Offset(es, i) % 4 == 0
  {
    if i == 0 {
      assert PartOffset(Chunks(es), 0) == PartOffsetStep(Chunks(es), 0);
    } else {
      OffsetAligned(es, i - 1);
      NextOffset(es, i - 1);
      ChunkAligned(es, i - 1);
    }
  }

  /** The first `n` entries are the first `n` chunks. */
  lemma {:induction false} WrittenIsConcat(es: seq<Entry>, n: nat)
    requires n <= |es| + 1
    ensures WrittenTo(es, n) == Concat(Chunks(es), n)
  {
    assert WrittenTo(es, n) == WrittenStep(es, n);
    assert Concat(Chunks(es), n) == ConcatStep(Chunks(es), n);
    if n > 0 {
      WrittenIsConcat(es, n - 1);
      ConcatLength(Chunks(es), n - 1);
      OffsetAligned(es, n - 1);
      if n <= |es| {
        WrittenAppends(WrittenTo(es, n - 1), es[n - 1], Ino(n - 1));
      } else {
        WrittenAppends(WrittenTo(es, n - 1), TrailerEntry(), 0);
      }
    }
  }

  /** An archive is its chunks, one after the other. */
  lemma {:induction false} ArchiveIsConcat(es: seq<Entry>)
    ensures Archive(es) == Concat(Chunks(es), |es| + 1)
    ensures |Archive(es)| == Offset(es, |es| + 1) && |Archive(es)| % 4 == 0
  {
    WrittenIsConcat(es, |es| + 1);
    OffsetAligned(es, |es| + 1);
    ConcatLength(Chunks(es), |es| + 1);
  }

  /** The first index from `i` on whose entry is named like the trailer. */
  function FirstTrailer(es: seq<Entry>, i: nat): (j: nat)
    requires i <= |es|
    ensures i <= j <= |es|
    ensures j < |es| ==> es[j].name == TrailerName()
    ensures forall k :: i <= k < j ==> es[k].name != TrailerName()
    decreases |es| - i
  {
    if i == |es| || es[i].name == TrailerName() then i else FirstTrailer(es, i + 1)
  }

  function RecordsOf(es: seq<Entry>, i: nat, j: nat): (rs: seq<Record>)
    requires i <= j <= |es|
    ensures |rs| == j - i
    ensures forall k :: 0 <= k < j - i ==> rs[k] == RecordOf(es[i + k], Ino(i + k))
  {
    seq(j - i, k requires 0 <= k < j - i => RecordOf(es[i + k], Ino(i + k)))
  }

  /** The record of header number `i`; the trailer's comes last. */
  function ChunkRecord(es: seq<Entry>, i: nat): Record
    requires i <= |es|
  {
    if i < |es| then RecordOf(es[i], Ino(i)) else RecordOf(TrailerEntry(), 0)
  }

  /** Header number `i` stands at its offset, and the next one follows it. */
  lemma {:induction false} ChunkHeld(b: Bytes, start: nat, es: seq<Entry>, i: nat)
    requires i <= |es| && HoldsAt(b, start, Concat(Chunks(es), |es| + 1))
    ensures HoldsAt(b, start + Offset(es, i), Chunk(es, i)) && Offset(es, i) % 4 == 0
    ensures Offset(es, i + 1) == Offset(es, i) + ChunkLength(es, i)
  {
    OffsetAligned(es, i);
    NextOffset(es, i);
    HoldsConcat(b, start, Chunks(es), i);
    ChunkLengths(es, i);
  }

  lemma ChunkRoundTrip(b: Bytes, pos: nat, es: seq<Entry>, i: nat)
    requires i <= |es| && pos % 4 == 0 && HoldsAt(b, pos, Chunk(es, i))
    requires i < |es| ==> FitsU32(es[i])
    ensures ReadRecord(b, pos) == Some(Parsed(ChunkRecord(es, i), pos + ChunkLength(es, i)))
    ensures pos < pos + ChunkLength(es, i) <= |b|
  {
    var e, ino := ChunkEntry(es, i);
    EntryRoundTrip(b, pos, e, ino);
    EntryUnfolds(e, ino);
  }

  /** The entry behind header number `i`. */
  lemma ChunkEntry(es: seq<Entry>, i: nat) returns (e: Entry, ino: U32)
    requires i <= |es| && (i < |es| ==> FitsU32(es[i]))
    ensures FitsU32(e) && Chunk(es, i) == EntryBytes(e, ino) && ChunkLength(es, i) == EntryLength(e) > 0
    ensures ChunkRecord(es, i) == RecordOf(e, ino)
  {
    e, ino := TrailerEntry(), 0;
    if i < |es| {
      e, ino := es[i], Ino(i);
    }
  }

  /** Reading header number `i`: the entry, and where the next header starts. */
  lemma {:induction false} ReadChunk(b: Bytes, start: nat, es: seq<Entry>, i: nat)
    requires start % 4 == 0 && i <= |es|
    requires HoldsAt(b, start, Concat(Chunks(es), |es| + 1))
    requires i < |es| ==> FitsU32(es[i])
    ensures start + Offset(es, i) < start + Offset(es, i + 1) <= |b|
    ensures ReadRecord(b, start + Offset(es, i)) == Some(Parsed(ChunkRecord(es, i), start + Offset(es, i + 1)))
  {
    ChunkHeld(b, start, es, i);
    ChunkRoundTrip(b, start + Offset(es, i), es, i);
  }

  predicate EndsAt(es: seq<Entry>, i: nat)
    requires i <= |es|
  {
    i == |es| || es[i].name == TrailerName()
  }

  /** One step of the reader: stop at the trailer or its namesake, otherwise the record and then the rest. */
  lemma {:induction false} ReadOne(b: Bytes, pos: nat, r: Record, next: nat)
    requires pos < next <= |b| && ReadRecord(b, pos) == Some(Parsed(r, next))
    ensures ReadArchive(b, pos) == if r.name == TrailerName() then Some(Listing([], next))
                                   else Prepend(r, ReadArchive(b, next))
  {
    TrailerEnds(r.name);
    assert ReadArchive(b, pos) == ReadStep(b, pos);
  }

  /** The records from header number `i` on, and where the header that stops the reader ends. */
  function ListingFrom(es: seq<Entry>, i: nat, start: nat): Listing
    requires i <= |es|
    decreases |es| - i
  {
    if EndsAt(es, i) then Listing([], start + Offset(es, i + 1))
    else
      var rest := ListingFrom(es, i + 1, start);
      Listing([ChunkRecord(es, i)] + rest.records, rest.end)
  }

  /** They are the records up to the first entry named like the trailer. */
  lemma {:induction false} ListingMeaning(es: seq<Entry>, i: nat, start: nat)
    requires i <= |es|
    ensures var j := FirstTrailer(es, i);
      ListingFrom(es, i, start) == Listing(RecordsOf(es, i, j), start + Offset(es, j + 1))
    decreases |es| - i
  {
    if EndsAt(es, i) {
      assert FirstTrailer(es, i) == i && RecordsOf(es, i, i) == [];
    } else {
      ListingMeaning(es, i + 1, start);
      assert FirstTrailer(es, i) == FirstTrailer(es, i + 1);
      RecordsCons(es, i, FirstTrailer(es, i));
    }
  }

  /** Reading from header number `i` on is its record and then the rest, unless the archive ends with it. */
  lemma ReadHeader(b: Bytes, start: nat, es: seq<Entry>, i: nat)
    requires start % 4 == 0 && i <= |es|
    requires HoldsAt(b, start, Concat(Chunks(es), |es| + 1))
    requires i < |es| ==> FitsU32(es[i])
    ensures start + Offset(es, i) < start + Offset(es, i + 1) <= |b|
    ensures ReadArchive(b, start + Offset(es, i))
      == if EndsAt(es, i) then Some(Listing([], start + Offset(es, i + 1)))
         else Prepend(ChunkRecord(es, i), ReadArchive(b, start + Offset(es, i + 1)))
  {
    ReadChunk(b, start, es, i);
    ReadOne(b, start + Offset(es, i), ChunkRecord(es, i), start + Offset(es, i + 1));
  }

  /** Reading from header number `i` on stops behind the first entry named like the trailer, or the trailer. */
  lemma {:induction false} ReadFrom(b: Bytes, start: nat, es: seq<Entry>, i: nat)
    requires start % 4 == 0 && i <= |es|
    requires HoldsAt(b, start, Concat(Chunks(es), |es| + 1))
    requires forall k :: 0 <= k < |es| ==> FitsU32(es[k])
    ensures start + Offset(es, i) <= |b|
    ensures ReadArchive(b, start + Offset(es, i)) == Some(ListingFrom(es, i, start))
    decreases |es| - i
  {
    if EndsAt(es, i) {
      ReadEnd(b, start, es, i);
    } else {
      ReadFrom(b, start, es, i + 1);
      ReadMore(b, start, es, i);
    }
  }

  lemma {:induction false} ReadEnd(b: Bytes, start: nat, es: seq<Entry>, i: nat)
    requires start % 4 == 0 && i <= |es| && EndsAt(es, i)
    requires HoldsAt(b, start, Concat(Chunks(es), |es| + 1)) && (i < |es| ==> FitsU32(es[i]))
    ensures start + Offset(es, i) <= |b|
    ensures ReadArchive(b, start + Offset(es, i)) == Some(ListingFrom(es, i, start))
  {
    ReadHeader(b, start, es, i);
  }

  lemma {:induction false} ReadMore(b: Bytes, start: nat, es: seq<Entry>, i: nat)
    requires start % 4 == 0 && i < |es| && !EndsAt(es, i) && FitsU32(es[i])
    requires HoldsAt(b, start, Concat(Chunks(es), |es| + 1)) && start + Offset(es, i + 1) <= |b|
    requires ReadArchive(b, start + Offset(es, i + 1)) == Some(ListingFrom(es, i + 1, start))
    ensures start + Offset(es, i) <= |b|
    ensures ReadArchive(b, start + Offset(es, i)) == Some(ListingFrom(es, i, start))
  {
    ReadHeader(b, start, es, i);
    ListingPrepends(es, i, start);
  }

  lemma ListingPrepends(es: seq<Entry>, i: nat, start: nat)
    requires i <= |es| && !EndsAt(es, i)
    ensures Prepend(ChunkRecord(es, i), Some(ListingFrom(es, i + 1, start))) == Some(ListingFrom(es, i, start))
  {}

  lemma RecordsCons(es: seq<Entry>, i: nat, j: nat)
    requires i < j <= |es|
    ensures RecordsOf(es, i, j) == [RecordOf(es[i], Ino(i))] + RecordsOf(es, i + 1, j)
  {}

  // ---- Round trip ----

  predicate AllFit(es: seq<Entry>) {
    |es| <= U32_MAX && forall k :: 0 <= k < |es| ==> FitsU32(es[k])
  }

  predicate HasTrailerName(es: seq<Entry>) {
    exists k :: 0 <= k < |es| && EndsArchive(es[k].name)
  }

  /**
    Archive round trip: reading a rendered archive gives back every entry, in order and numbered from 1,
    and consumes the whole buffer, exactly when no entry is named like the trailer.
   */
  lemma ArchiveRoundTripIff(es: seq<Entry>)
    requires AllFit(es)
    ensures ReadArchive(Archive(es), 0) == Some(Listing(RecordsOf(es, 0, |es|), |Archive(es)|)) <==> !HasTrailerName(es)
  {
    ReadWhole(es, Archive(es));
    WholeListing(es);
  }

  lemma HasTrailerIff(es: seq<Entry>)
    ensures HasTrailerName(es) <==> exists k :: 0 <= k < |es| && es[k].name == TrailerName()
  {
    forall k | 0 <= k < |es| ensures EndsArchive(es[k].name) <==> es[k].name == TrailerName() {
      TrailerEnds(es[k].name);
    }
  }

  lemma {:induction false} ReadWhole(es: seq<Entry>, b: Bytes)
    requires AllFit(es) && b == Archive(es)
    ensures ReadArchive(b, 0) == Some(ListingFrom(es, 0, 0)) && |b| == Offset(es, |es| + 1)
  {
    ArchiveIsConcat(es);
    ReadFrom(b, 0, es, 0);
  }

  lemma {:induction false} WholeListing(es: seq<Entry>)
    ensures ListingFrom(es, 0, 0) == Listing(RecordsOf(es, 0, |es|), Offset(es, |es| + 1)) <==> !HasTrailerName(es)
  {
    ListingMeaning(es, 0, 0);
    var j := FirstTrailer(es, 0);
    HasTrailerIff(es);
    if j < |es| {
      assert |RecordsOf(es, 0, j)| < |RecordsOf(es, 0, |es|)|;
    }
  }

  /** The record numbers are the positions, counted from 1. */
  lemma RecordsNumbered(es: seq<Entry>, k: nat)
    requires AllFit(es) && k < |es|
    ensures var e := es[k];
      RecordsOf(es, 0, |es|)[k]
      == Record(k + 1, e.mode, 0, 0, e.nlink, 0, 0, 0, e.rdevmajor, e.rdevminor, 0, e.name, e.data)
  {}

  /** An entry named like the trailer hides itself and everything behind it. */
  lemma TrailerNameTruncates(es: seq<Entry>, k: nat)
    requires AllFit(es) && k < |es| && EndsArchive(es[k].name)
    ensures ReadArchive(Archive(es), 0).Some? && |ReadArchive(Archive(es), 0).value.records| <= k
  {
    ReadWhole(es, Archive(es));
    ListingMeaning(es, 0, 0);
    TrailerEnds(es[k].name);
  }

  // ---- The text of a header ----

  predicate IsLowerHex(c: Byte) {
    0x30 <= c <= 0x39 || 0x61 <= c <= 0x66
  }

  /** The fields are written in lowercase digits, and what is written around name and data is zero. */
  predicate IsNewcText(b: Bytes, pos: nat, e: Entry)
    requires pos + EntryLength(e) <= |b|
  {
    var nameEnd, dataEnd := pos + HEADER_SIZE + |e.name|, pos + DataOffset(e) + |e.data|;
    && b[pos..pos + 6] == Ascii("070701")
    && (forall k :: pos + 6 <= k < pos + HEADER_SIZE ==> IsLowerHex(b[k]))
    && (forall k :: nameEnd <= k < pos + DataOffset(e) ==> b[k] == 0)
    && (forall k :: dataEnd <= k < pos + EntryLength(e) ==> b[k] == 0)
  }

  lemma {:induction false} EntryText(b: Bytes, pos: nat, e: Entry, ino: U32)
    requires HoldsAt(b, pos, EntryBytes(e, ino))
    ensures pos + EntryLength(e) <= |b| && IsNewcText(b, pos, e)
  {
    EntryParts(b, pos, e, ino);
    PartOffsets(e, ino);
    MagicText();
    FieldsLower(b, pos, HeaderFields(e, ino));
    PaddingHeld(b, pos, e, ino);
  }

  /** Every header of an archive, the trailer's too, is written that way. */
  lemma {:induction false} ArchiveText(es: seq<Entry>, i: nat)
    requires i <= |es|
    ensures var e := if i < |es| then es[i] else TrailerEntry();
      Offset(es, i) + EntryLength(e) <= |Archive(es)| && IsNewcText(Archive(es), Offset(es, i), e)
  {
    ArchiveIsConcat(es);
    var b := Archive(es);
    assert b[0..|b|] == b;
    ChunkHeld(b, 0, es, i);
    if i < |es| {
      EntryText(b, Offset(es, i), es[i], Ino(i));
    } else {
      EntryText(b, Offset(es, i), TrailerEntry(), 0);
    }
  }

  lemma LastRecord(es: seq<Entry>)
    ensures ChunkRecord(es, |es|) == Record(0, 0, 0, 0, 1, 0, 0, 0, 0, 0, 0, Ascii("TRAILER!!!"), [])
  {
    TrailerEnds(TrailerName());
  }

  lemma LastChunkHeld(b: Bytes, es: seq<Entry>)
    requires b == Archive(es)
    ensures HoldsAt(b, Offset(es, |es|), Chunk(es, |es|)) && Offset(es, |es|) % 4 == 0
    ensures |b| == Offset(es, |es|) + ChunkLength(es, |es|)
  {
    ArchiveIsConcat(es);
    assert b[0..|b|] == b;
    ChunkHeld(b, 0, es, |es|);
  }

  /** Behind the entries stands the trailer: all fields zero but one link and the size of its name. */
  lemma TrailerRecord(es: seq<Entry>)
    ensures ReadRecord(Archive(es), Offset(es, |es|))
      == Some(Parsed(Record(0, 0, 0, 0, 1, 0, 0, 0, 0, 0, 0, Ascii("TRAILER!!!"), []), |Archive(es)|))
  {
    var b := Archive(es);
    LastChunkHeld(b, es);
    ChunkRoundTrip(b, Offset(es, |es|), es, |es|);
    LastRecord(es);
  }

  lemma MagicText()
    ensures Magic() == Ascii("070701")
  {}

  lemma FieldsLower(b: Bytes, pos: nat, fields: seq<U32>)
    requires |fields| == FIELDS && pos + HEADER_SIZE <= |b| && HoldsAt(b, pos + 6, HexFields(fields, FIELDS))
    ensures forall k :: pos + 6 <= k < pos + HEADER_SIZE ==> IsLowerHex(b[k])
  {
    forall k | pos + 6 <= k < pos + HEADER_SIZE ensures IsLowerHex(b[k]) {
      var i, c := (k - pos - 6) / 8, (k - pos - 6) % 8;
      assert pos + 6 + 8 * i + c == k;
      FieldChar(b, pos, fields, i, c);
    }
  }

  lemma {:induction false} PaddingHeld(b: Bytes, pos: nat, e: Entry, ino: U32)
    requires HoldsAt(b, pos, EntryBytes(e, ino)) && pos + EntryLength(e) <= |b|
    ensures forall k :: pos + HEADER_SIZE + |e.name| <= k < pos + DataOffset(e) ==> b[k] == 0
    ensures forall k :: pos + DataOffset(e) + |e.data| <= k < pos + EntryLength(e) ==> b[k] == 0
  {
    PartOffsets(e, ino);
    PartHeld(b, pos, e, ino, 3);
    PartHeld(b, pos, e, ino, 4);
    PartHeld(b, pos, e, ino, 6);
    var nul, last := pos + HEADER_SIZE + |e.name|, pos + DataOffset(e) + |e.data|;
    var first := nul + 1;
    assert PartOffset(Parts(e, ino), 4) == PartOffsetStep(Parts(e, ino), 4);
    assert PartOffset(Parts(e, ino), 6) == PartOffsetStep(Parts(e, ino), 6);
    HeldZeros(b, nul, 1);
    HeldZeros(b, first, Padding(HEADER_SIZE + |e.name| + 1));
    HeldZeros(b, last, Padding(DataOffset(e) + |e.data|));
  }

  lemma HeldZeros(b: Bytes, pos: nat, n: nat)
    requires HoldsAt(b, pos, Zeros(n))
    ensures forall k :: pos <= k < pos + n ==> b[k] == 0
  {
    forall k | pos <= k < pos + n ensures b[k] == 0 {
      assert b[pos..pos + n][k - pos] == b[k];
    }
  }
}
