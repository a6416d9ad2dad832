/**
  Byte sequences, little-endian integers, overwriting a range, and the growable buffer that the
  writers append to.
 */
module Bytes {
  import opened Arithmetic

  type Byte = x: int | 0 <= x < 256
  type Bytes = seq<Byte>

  const U16_MAX := 0xFFFF
  const U32_MAX := 0xFFFF_FFFF

  // ---- Integers ----

  function Pow256(n: nat): (p: nat)
    ensures p > 0
  {
    if n == 0 then 1 else 256 * Pow256(n - 1)
  }

  lemma Pow256Of4()
    ensures Pow256(2) == 0x1_0000 && Pow256(4) == 0x1_0000_0000
  {
    assert Pow256(1) == 256;
    assert Pow256(3) == 0x100_0000;
  }

  /** The `k`-th little-endian byte of `v`. */
  function Digit(v: nat, k: nat): Byte {
    if k == 0 then v % 256 else Digit(v / 256, k - 1)
  }

  /** The low `8 * n` bits of `v`, least significant byte first. */
  function LeBytes(v: nat, n: nat): (b: Bytes)
    ensures |b| == n
  {
    seq(n, k requires 0 <= k < n => Digit(v, k))
  }

  /** The integer whose `n` little-endian bytes start at `off`. */
  function LeInt(b: Bytes, off: nat, n: nat): nat
    requires off + n <= |b|
    decreases |b| - off, 1
  {
    LeStep(b, off, n)
  }

  function LeStep(b: Bytes, off: nat, n: nat): nat
    requires off + n <= |b|
    decreases |b| - off, 0
  {
    if n == 0 then 0 else b[off] as int + 256 * LeInt(b, off + 1, n - 1)
  }

  lemma {:induction false} LeIntBound(b: Bytes, off: nat, n: nat)
    requires off + n <= |b|
    ensures LeInt(b, off, n) < Pow256(n)
    decreases n
  {
    assert LeInt(b, off, n) == LeStep(b, off, n);
    if n > 0 {
      LeIntBound(b, off + 1, n - 1);
    }
  }

  /** `v as u16` and `v as u32` in little-endian bytes. */
  function Le16(v: nat): (b: Bytes)
    ensures |b| == 2
  {
    LeBytes(v, 2)
  }

  function Le32(v: nat): (b: Bytes)
    ensures |b| == 4
  {
    LeBytes(v, 4)
  }

  function Rd16(b: Bytes, off: nat): (v: nat)
    requires off + 2 <= |b|
    ensures v <= U16_MAX
  {
    Pow256Of4();
    LeIntBound(b, off, 2);
    LeInt(b, off, 2)
  }

  function Rd32(b: Bytes, off: nat): (v: nat)
    requires off + 4 <= |b|
    ensures v <= U32_MAX
  {
    Pow256Of4();
    LeIntBound(b, off, 4);
    LeInt(b, off, 4)
  }

  /** Writing an integer and reading it back keeps exactly its low bytes. */
  lemma {:induction false} LeRoundTrip(v: nat, b: Bytes, off: nat, n: nat)
    requires off + n <= |b|
    requires forall k :: off <= k < off + n ==> b[k] == Digit(v, k - off)
    ensures LeInt(b, off, n) == v % Pow256(n)
    ensures v < Pow256(n) ==> LeInt(b, off, n) == v
    decreases n
  {
    assert LeInt(b, off, n) == LeStep(b, off, n);
    if n > 0 {
      LeRoundTrip(v / 256, b, off + 1, n - 1);
      SplitMod(v, 256, Pow256(n - 1));
    }
  }

  /** Equal bytes read as equal integers. */
  lemma {:induction false} ReadsAgree(b: Bytes, c: Bytes, off: nat, n: nat)
    requires off + n <= |b| && off + n <= |c|
    requires forall k :: off <= k < off + n ==> b[k] == c[k]
    ensures LeInt(b, off, n) == LeInt(c, off, n)
    decreases n
  {
    assert LeInt(b, off, n) == LeStep(b, off, n) && LeInt(c, off, n) == LeStep(c, off, n);
    if n > 0 {
      ReadsAgree(b, c, off + 1, n - 1);
    }
  }

  // ---- Text ----

  /** The bytes of an ASCII string. */
  function Ascii(s: string): (b: Bytes)
    ensures |b| == |s|
  {
    seq(|s|, i requires 0 <= i < |s| => (s[i] as int) % 256)
  }

  // ---- Buffers ----

  function Zeros(n: nat): (b: Bytes)
    ensures |b| == n
  {
    seq(n, i => 0)
  }

  /** `Vec::resize(n, 0)`: truncates, or pads with zeros. */
  function Resize(b: Bytes, n: nat): (r: Bytes)
    ensures |r| == n
  {
    if n <= |b| then b[..n] else b + Zeros(n - |b|)
  }

  /** The first `n` parts, one after the other. */
  function Concat(parts: seq<Bytes>, n: nat): Bytes
    requires n <= |parts|
    decreases n, 1
  {
    ConcatStep(parts, n)
  }

  function ConcatStep(parts: seq<Bytes>, n: nat): Bytes
    requires n <= |parts|
    decreases n, 0
  {
    if n == 0 then [] else Concat(parts, n - 1) + parts[n - 1]
  }

  /** Offset of part `n`. */
  function PartOffset(parts: seq<Bytes>, n: nat): nat
    requires n <= |parts|
    decreases n, 1
  {
    PartOffsetStep(parts, n)
  }

  function PartOffsetStep(parts: seq<Bytes>, n: nat): nat
    requires n <= |parts|
    decreases n, 0
  {
    if n == 0 then 0 else PartOffset(parts, n - 1) + |parts[n - 1]|
  }

  lemma {:induction false} ConcatLength(parts: seq<Bytes>, n: nat)
    requires n <= |parts|
    ensures |Concat(parts, n)| == PartOffset(parts, n)
  {
    assert Concat(parts, n) == ConcatStep(parts, n) && PartOffset(parts, n) == PartOffsetStep(parts, n);
    if n > 0 {
      ConcatLength(parts, n - 1);
    }
  }

  /** Every part can be found at its offset. */
  lemma {:induction false} ConcatIndex(parts: seq<Bytes>, n: nat, i: nat)
    requires i < n <= |parts|
    ensures PartOffset(parts, i) + |parts[i]| <= |Concat(parts, n)|
    ensures forall k :: PartOffset(parts, i) <= k < PartOffset(parts, i) + |parts[i]| ==>
      Concat(parts, n)[k] == parts[i][k - PartOffset(parts, i)]
    decreases n
  {
    assert Concat(parts, n) == ConcatStep(parts, n);
    ConcatLength(parts, n - 1);
    if i < n - 1 {
      ConcatIndex(parts, n - 1, i);
    }
  }

  /** `b` with the range starting at `off` overwritten by `d`, byte by byte. */
  function WriteAt(b: Bytes, off: nat, d: Bytes): (r: Bytes)
    requires off + |d| <= |b|
    ensures |r| == |b|
  {
    Overwrite(b, off, d, |d|)
  }

  function Overwrite(b: Bytes, off: nat, d: Bytes, n: nat): (r: Bytes)
    requires n <= |d| && off + |d| <= |b|
    ensures |r| == |b|
    decreases n, 1
  {
    OverwriteStep(b, off, d, n)
  }

  function OverwriteStep(b: Bytes, off: nat, d: Bytes, n: nat): (r: Bytes)
    requires n <= |d| && off + |d| <= |b|
    ensures |r| == |b|
    decreases n, 0
  {
    if n == 0 then b else Overwrite(b, off, d, n - 1)[off + n - 1 := d[n - 1]]
  }

  lemma WriteAtIndex(b: Bytes, off: nat, d: Bytes)
    requires off + |d| <= |b|
    ensures forall k :: 0 <= k < |b| ==> WriteAt(b, off, d)[k] == if off <= k < off + |d| then d[k - off] else b[k]
  {
    OverwriteIndex(b, off, d, |d|);
  }

  lemma {:induction false} OverwriteIndex(b: Bytes, off: nat, d: Bytes, n: nat)
    requires n <= |d| && off + |d| <= |b|
    ensures forall k :: 0 <= k < |b| ==> Overwrite(b, off, d, n)[k] == if off <= k < off + n then d[k - off] else b[k]
  {
    var r := Overwrite(b, off, d, n);
    assert r == OverwriteStep(b, off, d, n);
    if n > 0 {
      OverwriteIndex(b, off, d, n - 1);
      var before := Overwrite(b, off, d, n - 1);
      forall k | 0 <= k < |b| ensures r[k] == if off <= k < off + n then d[k - off] else b[k] {
        assert r[k] == if k == off + n - 1 then d[n - 1] else before[k];
      }
    }
  }

  lemma WriteAdjacent(b: Bytes, off: nat, d: Bytes, e: Bytes)
    requires off + |d| + |e| <= |b|
    ensures WriteAt(WriteAt(b, off, d), off + |d|, e) == WriteAt(b, off, d + e)
  {
    WriteAtIndex(b, off, d);
    WriteAtIndex(WriteAt(b, off, d), off + |d|, e);
    WriteAtIndex(b, off, d + e);
  }

  datatype Patch = Patch(off: nat, data: Bytes)

  predicate PatchesFit(ps: seq<Patch>, len: nat) {
    forall i :: 0 <= i < |ps| ==> ps[i].off + |ps[i].data| <= len
  }

  /** `b` after the first `n` patches were written, in order. */
  function Patched(b: Bytes, ps: seq<Patch>, n: nat): (r: Bytes)
    requires n <= |ps| && PatchesFit(ps, |b|)
    ensures |r| == |b|
    decreases n, 1
  {
    PatchedStep(b, ps, n)
  }

  function PatchedStep(b: Bytes, ps: seq<Patch>, n: nat): (r: Bytes)
    requires n <= |ps| && PatchesFit(ps, |b|)
    ensures |r| == |b|
    decreases n, 0
  {
    if n == 0 then b else WriteAt(Patched(b, ps, n - 1), ps[n - 1].off, ps[n - 1].data)
  }

  /** The growable output buffer (`&mut Vec<u8>`). */
  class Buffer {
    var bytes: Bytes

    constructor ()
      ensures bytes == []
    {
      bytes := [];
    }

    method Extend(d: Bytes)
      modifies this
      ensures bytes == old(bytes) + d
    {
      bytes := bytes + d;
    }
  }
}
