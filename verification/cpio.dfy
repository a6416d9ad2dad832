/** The reproducible newc writer: entries in a sorted map, rendered with fixed-width hex headers. */
module Cpio {
  import opened Arithmetic
  import opened Alignment
  import opened Bytes
  import opened Wrappers
  import opened NameOrder

  type U32 = x: int | 0 <= x <= 0xFFFF_FFFF

  const S_IFREG: U32 := 0x8000
  const S_IFDIR: U32 := 0x4000
  const S_IFLNK: U32 := 0xA000
  const S_IFCHR: U32 := 0x2000
  const S_IFBLK: U32 := 0x6000
  const S_IFIFO: U32 := 0x1000

  const HEADER_SIZE := 110
  const FIELDS := 13

  /** `data` is the file contents, or the target for a symlink; empty otherwise. */
  datatype Entry = Entry(name: Bytes, mode: U32, nlink: U32, rdevmajor: U32, rdevminor: U32, data: Bytes)

  /** "070701" */
  function Magic(): (m: Bytes)
    ensures |m| == 6
  {
    [0x30, 0x37, 0x30, 0x37, 0x30, 0x31]
  }

  /** "TRAILER!!!" */
  function TrailerName(): Bytes {
    [0x54, 0x52, 0x41, 0x49, 0x4C, 0x45, 0x52, 0x21, 0x21, 0x21]
  }

  // ---- Device numbers ----

  /** `((rdev >> 8) & 0xfff) | ((rdev >> 32) & !0xfff)`; the two operands share no bit, so `|` is a sum. */
  function DevMajor(rdev: nat): U32 {
    (rdev / 0x100 % 0x1000 + AndNot(rdev / 0x1_0000_0000, 0xFFF)) % 0x1_0000_0000
  }

  /** `(rdev & 0xff) | ((rdev >> 12) & !0xff)`, cut to 32 bits. */
  function DevMinor(rdev: nat): U32 {
    (rdev % 0x100 + AndNot(rdev / 0x1000, 0xFF)) % 0x1_0000_0000
  }

  /** glibc's `gnu_dev_makedev`, the other direction. */
  function MakeDev(major: U32, minor: U32): nat {
    major % 0x1000 * 0x100 + (major - major % 0x1000) * 0x1_0000_0000
    + minor % 0x100 + (minor - minor % 0x100) * 0x1000
  }

  lemma {:induction false} LowBitsCleared(x: nat, k: nat)
    requires k == 0x1000 || k == 0x100
    ensures AndNot(x, k - 1) == x - x % k
  {
    IsPow2Small();
    var q := MaskClearsLowBits(x, k);
    ModOfSum(q, x - q * k, k);
  }

  lemma IsPow2Small()
    ensures IsPow2(0x100) && IsPow2(0x1000)
  {
    assert IsPow2(2);
    assert IsPow2(8);
    assert IsPow2(0x20);
    assert IsPow2(0x80);
    assert IsPow2(0x200);
    assert IsPow2(0x800);
  }

  /** A 64-bit device number as its five bit fields: 8, 12, 12, 12 and 20 bits. */
  function Assemble(a: nat, b: nat, c: nat, d: nat, e: nat): nat {
    a + 0x100 * b + 0x10_0000 * c + 0x1_0000_0000 * d + 0x1000_0000_0000 * e
  }

  lemma Quotient(x: nat, k: nat, q: nat, r: nat)
    requires k > 0 && r < k && x == q * k + r
    ensures x / k == q && x % k == r
  {
    assert x == x / k * k + x % k;
    Euclid(q, r, x / k, x % k, k);
  }

  lemma MajorOf(a: nat, b: nat, c: nat, d: nat, e: nat)
    requires a < 0x100 && b < 0x1000 && c < 0x1000 && d < 0x1000 && e < 0x10_0000
    ensures DevMajor(Assemble(a, b, c, d, e)) == b + 0x1000 * e
  {
    MajorLow(a, b, c, d, e);
    MajorHigh(a, b, c, d, e);
  }

  lemma MajorLow(a: nat, b: nat, c: nat, d: nat, e: nat)
    requires a < 0x100 && b < 0x1000
    ensures Assemble(a, b, c, d, e) / 0x100 % 0x1000 == b
  {
    var high := b + 0x1000 * c + 0x100_0000 * d + 0x10_0000_0000 * e;
    Quotient(Assemble(a, b, c, d, e), 0x100, high, a);
    Quotient(high, 0x1000, c + 0x1000 * d + 0x100_0000 * e, b);
  }

  lemma MajorHigh(a: nat, b: nat, c: nat, d: nat, e: nat)
    requires a < 0x100 && b < 0x1000 && c < 0x1000 && d < 0x1000
    ensures AndNot(Assemble(a, b, c, d, e) / 0x1_0000_0000, 0xFFF) == 0x1000 * e
  {
    Quotient(Assemble(a, b, c, d, e), 0x1_0000_0000, d + 0x1000 * e, a + 0x100 * b + 0x10_0000 * c);
    LowBitsCleared(d + 0x1000 * e, 0x1000);
    Quotient(d + 0x1000 * e, 0x1000, e, d);
  }

  lemma MinorOf(a: nat, b: nat, c: nat, d: nat, e: nat)
    requires a < 0x100 && b < 0x1000 && c < 0x1000 && d < 0x1000 && e < 0x10_0000
    ensures DevMinor(Assemble(a, b, c, d, e)) == a + 0x100 * c + 0x10_0000 * d
  {
    MinorLow(a, b, c, d, e);
    MinorHigh(a, b, c, d, e);
    var high := c * 0x100 + 0x10_0000 * d + 0x1_0000_0000 * e;
    Quotient(a + high, 0x1_0000_0000, e, a + 0x100 * c + 0x10_0000 * d);
  }

  lemma MinorLow(a: nat, b: nat, c: nat, d: nat, e: nat)
    requires a < 0x100
    ensures Assemble(a, b, c, d, e) % 0x100 == a
  {
    Quotient(Assemble(a, b, c, d, e), 0x100, b + 0x1000 * c + 0x100_0000 * d + 0x10_0000_0000 * e, a);
  }

  lemma MinorHigh(a: nat, b: nat, c: nat, d: nat, e: nat)
    requires a < 0x100 && b < 0x1000
    ensures AndNot(Assemble(a, b, c, d, e) / 0x1000, 0xFF) == c * 0x100 + 0x10_0000 * d + 0x1_0000_0000 * e
  {
    var high := c * 0x100 + 0x10_0000 * d + 0x1_0000_0000 * e;
    Quotient(Assemble(a, b, c, d, e), 0x1000, b / 0x10 + high, a + 0x100 * (b % 0x10));
    LowBitsCleared(b / 0x10 + high, 0x100);
    Quotient(b / 0x10 + high, 0x100, c + 0x1000 * d + 0x100_0000 * e, b / 0x10);
  }

  lemma FiveFields(rdev: nat) returns (a: nat, b: nat, c: nat, d: nat, e: nat)
    requires rdev < 0x1_0000_0000_0000_0000
    ensures a < 0x100 && b < 0x1000 && c < 0x1000 && d < 0x1000 && e < 0x10_0000
    ensures rdev == Assemble(a, b, c, d, e)
  {
    a := rdev % 0x100;
    var r := rdev / 0x100;
    b := r % 0x1000;
    r := r / 0x1000;
    c := r % 0x1000;
    r := r / 0x1000;
    d := r % 0x1000;
    e := r / 0x1000;
  }

  function DevEntry(name: Bytes, mode: U32, rdev: nat): Entry {
    Entry(name, mode, 1, DevMajor(rdev), DevMinor(rdev), [])
  }

  lemma MakeDevOf(a: nat, b: nat, c: nat, d: nat, e: nat, major: U32, minor: U32)
    requires a < 0x100 && b < 0x1000 && c < 0x1000 && d < 0x1000 && e < 0x10_0000
    requires major == b + 0x1000 * e && minor == a + 0x100 * c + 0x10_0000 * d
    ensures MakeDev(major, minor) == Assemble(a, b, c, d, e)
  {
    Quotient(major, 0x1000, e, b);
    Quotient(minor, 0x100, c + 0x1000 * d, a);
  }

  /** The two halves that a device entry carries recompose to every 64-bit device number. */
  lemma DeviceNumbersRecompose(name: Bytes, mode: U32, rdev: nat)
    requires rdev < 0x1_0000_0000_0000_0000
    ensures var e := DevEntry(name, mode, rdev); MakeDev(e.rdevmajor, e.rdevminor) == rdev
  {
    var a, b, c, d, e := FiveFields(rdev);
    MajorOf(a, b, c, d, e);
    MinorOf(a, b, c, d, e);
    MakeDevOf(a, b, c, d, e, DevMajor(rdev), DevMinor(rdev));
  }

  function NewEntry(name: Bytes, mode: U32, nlink: U32, data: Bytes): Entry {
    Entry(name, mode, nlink, 0, 0, data)
  }

  function DevSplitEntry(name: Bytes, mode: U32, major: U32, minor: U32): Entry {
    Entry(name, mode, 1, major, minor, [])
  }

  // ---- Hex fields ----

  /** The `k`-th hex digit of `v`, counted from the least significant. */
  function Nibble(v: nat, k: nat): (d: nat)
    ensures d < 16
  {
    if k == 0 then v % 16 else Nibble(v / 16, k - 1)
  }

  function HexChar(d: nat): Byte
    requires d < 16
  {
    if d < 10 then 0x30 + d else 0x61 + (d - 10)
  }

  /** `{:08x}`: eight lowercase digits, most significant first. */
  function Hex8(v: U32): (b: Bytes)
    ensures |b| == 8
  {
    seq(8, k requires 0 <= k < 8 => HexChar(Nibble(v, 7 - k)))
  }

  /** The first `n` fields, eight digits each. */
  function HexFields(fields: seq<U32>, n: nat): (b: Bytes)
    requires n <= |fields|
    ensures |b| == 8 * n
  {
    seq(8 * n, k requires 0 <= k < 8 * n => Hex8(fields[k / 8])[k % 8])
  }

  function HeaderFields(e: Entry, ino: U32): (fields: seq<U32>)
    ensures |fields| == FIELDS
  {
    [ino, e.mode, 0, 0, e.nlink, 0, |e.data| % 0x1_0000_0000, 0, 0, e.rdevmajor, e.rdevminor, NameSize(e.name), 0]
  }

  /** `len as u32 + 1`, with the NUL counted; the addition wraps in release builds. */
  function NameSize(name: Bytes): U32 {
    (|name| % 0x1_0000_0000 + 1) % 0x1_0000_0000
  }

  // ---- Entries ----

  function Padding(n: nat): (p: nat)
    ensures p < 4 && (n + p) % 4 == 0
  {
    (4 - n % 4) % 4
  }

  function PadTo4(b: Bytes): (r: Bytes)
    ensures |r| % 4 == 0 && |r| == |b| + Padding(|b|)
  {
    b + Zeros(Padding(|b|))
  }

  /** What `write` appends the entry to: the padding depends on the length of the whole buffer. */
  function Written(out: Bytes, e: Entry, ino: U32): Bytes {
    PadTo4(PadTo4(out + Magic() + HexFields(HeaderFields(e, ino), FIELDS) + e.name + [0]) + e.data)
  }

  function TrailerEntry(): Entry {
    NewEntry(TrailerName(), 0, 1, [])
  }

  /** The buffer after the first `n` entries, numbered from 1; the trailer counts as the last one. */
  function WrittenTo(es: seq<Entry>, n: nat): (r: Bytes)
    requires n <= |es| + 1
    decreases n, 1
  {
    WrittenStep(es, n)
  }

  function WrittenStep(es: seq<Entry>, n: nat): (r: Bytes)
    requires n <= |es| + 1
    decreases n, 0
  {
    if n == 0 then []
    else if n <= |es| then Written(WrittenTo(es, n - 1), es[n - 1], Ino(n - 1))
    else Written(WrittenTo(es, n - 1), TrailerEntry(), 0)
  }

  /** `ino as u32 + 1` for the `i`-th entry. */
  function Ino(i: nat): U32 {
    (i % 0x1_0000_0000 + 1) % 0x1_0000_0000
  }

  /** The whole archive: the entries in order, then the trailer. */
  function Archive(es: seq<Entry>): Bytes {
    WrittenTo(es, |es| + 1)
  }

  // ---- The writer ----

  method WriteHex8(out: Buffer, v: U32)
    modifies out
    ensures out.bytes == old(out.bytes) + Hex8(v)
  {
    out.Extend(Hex8(v));
  }

  method Pad4(out: Buffer)
    modifies out
    ensures out.bytes == PadTo4(old(out.bytes))
  {
    ghost var n := |out.bytes|;
    while |out.bytes| % 4 != 0
      invariant n <= |out.bytes| <= n + Padding(n)
      invariant out.bytes == old(out.bytes) + Zeros(|out.bytes| - n)
      decreases n + Padding(n) - |out.bytes|
    {
      out.Extend([0]);
    }
  }

  /** Magic, then the fields one by one. */
  method WriteHeader(out: Buffer, fields: seq<U32>)
    modifies out
    ensures out.bytes == old(out.bytes) + Magic() + HexFields(fields, |fields|)
  {
    out.Extend(Magic());
    ghost var before := out.bytes;
    for i := 0 to |fields|
      invariant out.bytes == before + HexFields(fields, i)
    {
      WriteHex8(out, fields[i]);
      assert HexFields(fields, i + 1) == HexFields(fields, i) + Hex8(fields[i]);
    }
  }

  method WriteEntry(out: Buffer, e: Entry, ino: U32)
    modifies out
    ensures out.bytes == Written(old(out.bytes), e, ino)
  {
    var namesize: U32 := NameSize(e.name);
    var filesize: U32 := |e.data| % 0x1_0000_0000;
    WriteHeader(out, [ino, e.mode, 0, 0, e.nlink, 0, filesize, 0, 0, e.rdevmajor, e.rdevminor, namesize, 0]);
    out.Extend(e.name);
    out.Extend([0]);
    Pad4(out);
    out.Extend(e.data);
    Pad4(out);
  }

  /** The trailer has no data, so one padding step is enough. */
  method WriteTrailer(out: Buffer)
    modifies out
    ensures out.bytes == Written(old(out.bytes), TrailerEntry(), 0)
  {
    WriteHeader(out, [0, 0, 0, 0, 1, 0, 0, 0, 0, 0, 0, |TrailerName()| + 1, 0]);
    out.Extend(TrailerName());
    out.Extend([0]);
    ghost var named := out.bytes;
    Pad4(out);
    assert PadTo4(named) + [] == PadTo4(named);
    assert PadTo4(PadTo4(named)) == PadTo4(named);
  }
}
