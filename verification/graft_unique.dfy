/** The format leaves no choice: grafting is the one file that it describes. */
module GraftUnique {
  import opened Arithmetic
  import opened Bytes
  import opened Wrappers
  import opened Alignment
  import opened PeImage
  import opened Graft
  import opened PeFormat
  import opened GraftFormat

  lemma {:induction false} OneMultiple(y: nat, z: nat, x: nat, a: nat)
    requires LeastMultiple(y, x, a) && LeastMultiple(z, x, a)
    ensures y == z
  {
    if y < z {
      NextMultiple(y, z, a);
    } else if z < y {
      NextMultiple(z, y, a);
    }
  }

  // ---- One list of addresses ----

  lemma EndsMonotone(stub: Bytes, s: nat, v: nat, w: nat)
    requires HasHeaders(stub) && s < CountIn(stub) && v <= w && EndsBelow(stub, s, v)
    ensures EndsBelow(stub, s, w)
  {}

  lemma NotSmaller(stub: Bytes, v: nat, w: nat)
    requires HasHeaders(stub) && FirstAddress(stub, v) && FirstAddress(stub, w)
    ensures w <= v
  {
    if v < w {
      var a := SectionAlignment(stub);
      NextMultiple(v, w, a);
      var s :| 0 <= s < CountIn(stub) && !EndsBelow(stub, s, w - a);
      EndsMonotone(stub, s, v, w - a);
    }
  }

  lemma {:induction false} SameAddress(stub: Bytes, ss: seq<Section>, v: seq<nat>, w: seq<nat>, i: nat)
    requires HasHeaders(stub) && Addresses(stub, ss, v) && Addresses(stub, ss, w) && i <= |ss|
    ensures v[i] == w[i]
  {
    if i == 0 {
      NotSmaller(stub, v[0], w[0]);
      NotSmaller(stub, w[0], v[0]);
    } else {
      SameAddress(stub, ss, v, w, i - 1);
      OneMultiple(v[i], w[i], v[i - 1] + |ss[i - 1].data|, SectionAlignment(stub));
    }
  }

  // ---- One place for each section's data ----

  /** Both files hold the sections, whatever else they hold. */
  predicate BothHold(stub: Bytes, ss: seq<Section>, out: Bytes, other: Bytes) {
    && HasHeaders(stub)
    && HeaderAt(stub, CountIn(stub) + |ss|) <= |out| && HeaderAt(stub, CountIn(stub) + |ss|) <= |other|
    && SectionsHeld(stub, ss, out) && SectionsHeld(stub, ss, other)
  }

  /** The data of new section `i` and where it ends. */
  lemma RawOf(stub: Bytes, ss: seq<Section>, out: Bytes, i: nat) returns (p: nat, size: nat)
    requires HasHeaders(stub) && HeaderAt(stub, CountIn(stub) + |ss|) <= |out| && i < |ss|
    requires SectionsHeld(stub, ss, out)
    ensures var sh := HeaderAt(stub, CountIn(stub) + i); p == U32At(out, sh + 20) && size == U32At(out, sh + 16)
    ensures RawData(out, EndBefore(stub, out, i), p, size, ss[i].data, FileAlignment(stub))
    ensures EndBefore(stub, out, i + 1) == p + size
  {
    assert IsSection(stub, ss, out, i);
    var sh := HeaderAt(stub, CountIn(stub) + i);
    p, size := U32At(out, sh + 20), U32At(out, sh + 16);
  }

  lemma {:induction false} SameEnd(stub: Bytes, ss: seq<Section>, out: Bytes, other: Bytes, i: nat)
    requires BothHold(stub, ss, out, other) && i <= |ss|
    ensures EndBefore(stub, out, i) == EndBefore(stub, other, i)
    decreases i, 0
  {
    if i > 0 {
      SameRaw(stub, ss, out, other, i - 1);
    }
  }

  lemma {:induction false} SameRaw(stub: Bytes, ss: seq<Section>, out: Bytes, other: Bytes, i: nat)
    requires BothHold(stub, ss, out, other) && i < |ss|
    ensures var sh := HeaderAt(stub, CountIn(stub) + i);
      U32At(out, sh + 20) == U32At(other, sh + 20) && U32At(out, sh + 16) == U32At(other, sh + 16)
    decreases i, 1
  {
    SameEnd(stub, ss, out, other, i);
    var p, size := RawOf(stub, ss, out, i);
    var q, length := RawOf(stub, ss, other, i);
    OneMultiple(p, q, EndBefore(stub, out, i), FileAlignment(stub));
    OneMultiple(size, length, |ss[i].data|, FileAlignment(stub));
  }

  // ---- One value for each byte ----

  /** Equal numbers have equal bytes. */
  lemma FourAgree(b: Bytes, c: Bytes, off: nat, k: nat)
    requires off + 4 <= |b| && off + 4 <= |c| && U32At(b, off) == U32At(c, off) && off <= k < off + 4
    ensures b[k] == c[k]
  {
    Split(b[off], b[off + 1] as int + 0x100 * b[off + 2] as int + 0x1_0000 * b[off + 3] as int,
          c[off], c[off + 1] as int + 0x100 * c[off + 2] as int + 0x1_0000 * c[off + 3] as int);
    Split(b[off + 1], b[off + 2] as int + 0x100 * b[off + 3] as int,
          c[off + 1], c[off + 2] as int + 0x100 * c[off + 3] as int);
    Split(b[off + 2], b[off + 3], c[off + 2], c[off + 3]);
  }

  lemma TwoAgree(b: Bytes, c: Bytes, off: nat, k: nat)
    requires off + 2 <= |b| && off + 2 <= |c| && U16At(b, off) == U16At(c, off) && off <= k < off + 2
    ensures b[k] == c[k]
  {
    Split(b[off], b[off + 1], c[off], c[off + 1]);
  }

  lemma Split(x: Byte, high: nat, y: Byte, other: nat)
    requires x as int + 0x100 * high == y as int + 0x100 * other
    ensures x == y && high == other
  {}

  /** Within a new header. */
  lemma SlotAgrees(stub: Bytes, ss: seq<Section>, out: Bytes, other: Bytes, v: nat, i: nat, k: nat)
    requires BothHold(stub, ss, out, other) && i < |ss|
    requires HoldsAddress(stub, out, i, v) && HoldsAddress(stub, other, i, v)
    requires var sh := HeaderAt(stub, CountIn(stub) + i); sh <= k < sh + 40
    ensures out[k] == other[k]
  {
    SameRaw(stub, ss, out, other, i);
    assert IsSection(stub, ss, out, i) && IsSection(stub, ss, other, i);
    HeadersAgree(out, other, HeaderAt(stub, CountIn(stub) + i), ss[i], k);
  }

  lemma HeadersAgree(out: Bytes, other: Bytes, sh: nat, s: Section, k: nat)
    requires HeaderFor(out, sh, s) && HeaderFor(other, sh, s) && sh <= k < sh + 40
    requires U32At(out, sh + 12) == U32At(other, sh + 12) && U32At(out, sh + 16) == U32At(other, sh + 16)
    requires U32At(out, sh + 20) == U32At(other, sh + 20)
    ensures out[k] == other[k]
  {
    if sh + 8 <= k < sh + 12 {
      FourAgree(out, other, sh + 8, k);
    } else if sh + 12 <= k < sh + 16 {
      FourAgree(out, other, sh + 12, k);
    } else if sh + 16 <= k < sh + 20 {
      FourAgree(out, other, sh + 16, k);
    } else if sh + 20 <= k < sh + 24 {
      FourAgree(out, other, sh + 20, k);
    } else if k >= sh + 36 {
      FourAgree(out, other, sh + 36, k);
    }
  }

  /** Below the end of the stub. */
  lemma StubAgrees(stub: Bytes, ss: seq<Section>, out: Bytes, other: Bytes, v: seq<nat>, k: nat)
    requires IsGraft(stub, ss, out) && IsGraft(stub, ss, other) && |v| == |ss| + 1 && k < |stub|
    requires HoldsAddresses(stub, ss, out, v) && HoldsAddresses(stub, ss, other, v)
    ensures out[k] == other[k]
  {
    var e, first := PeAt(stub), HeaderAt(stub, CountIn(stub));
    if e + 6 <= k < e + 8 {
      TwoAgree(out, other, e + 6, k);
    } else if e + 24 + 56 <= k < e + 24 + 60 {
      FourAgree(out, other, e + 24 + 56, k);
    } else if e + 24 + 64 <= k < e + 24 + 68 {
      FourAgree(out, other, e + 24 + 64, k);
    } else if first <= k < first + 40 * |ss| {
      var i := (k - first) / 40;
      assert HoldsAddress(stub, out, i, v[i]) && HoldsAddress(stub, other, i, v[i]);
      SlotAgrees(stub, ss, out, other, v[i], i, k);
    } else {
      assert !GraftFormat.Rewritten(stub, |ss|, k);
    }
  }

  lemma RawAgrees(out: Bytes, other: Bytes, from: nat, p: nat, size: nat, data: Bytes, fileAlign: nat, k: nat)
    requires RawData(out, from, p, size, data, fileAlign) && RawData(other, from, p, size, data, fileAlign)
    requires from <= k < p + size
    ensures out[k] == other[k]
  {
    if p <= k < p + |data| {
      assert out[p + (k - p)] == data[k - p] == other[p + (k - p)];
    }
  }

  /** In or around the data of new section `i`. */
  lemma DataAgrees(stub: Bytes, ss: seq<Section>, out: Bytes, other: Bytes, i: nat, k: nat)
    requires BothHold(stub, ss, out, other) && i < |ss|
    requires EndBefore(stub, out, i) <= k < EndBefore(stub, out, i + 1)
    ensures k < |out| && k < |other| && out[k] == other[k]
  {
    var p, size := RawOf(stub, ss, out, i);
    var q, length := RawOf(stub, ss, other, i);
    SameRaw(stub, ss, out, other, i);
    SameEnd(stub, ss, out, other, i);
    RawAgrees(out, other, EndBefore(stub, out, i), p, size, ss[i].data, FileAlignment(stub), k);
  }

  /** Behind the stub, in or around the data of the first `i` sections. */
  lemma {:induction false} BehindAgrees(stub: Bytes, ss: seq<Section>, out: Bytes, other: Bytes, i: nat, k: nat)
    requires BothHold(stub, ss, out, other) && i <= |ss|
    requires |stub| <= k < EndBefore(stub, out, i)
    ensures k < |out| && k < |other| && out[k] == other[k]
    decreases i
  {
    if k < EndBefore(stub, out, i - 1) {
      BehindAgrees(stub, ss, out, other, i - 1, k);
    } else {
      DataAgrees(stub, ss, out, other, i - 1, k);
    }
  }

  /** There is only one file of this form. */
  lemma OneGraft(stub: Bytes, ss: seq<Section>, out: Bytes, other: Bytes)
    requires IsGraftOf(stub, ss, out) && IsGraftOf(stub, ss, other)
    ensures out == other
  {
    var v :| Addresses(stub, ss, v) && HoldsAddresses(stub, ss, out, v);
    var w :| Addresses(stub, ss, w) && HoldsAddresses(stub, ss, other, w);
    forall i | 0 <= i <= |ss| ensures v[i] == w[i] {
      SameAddress(stub, ss, v, w, i);
    }
    assert v == w;
    SameEnd(stub, ss, out, other, |ss|);
    forall k | 0 <= k < |out| ensures out[k] == other[k] {
      if k < |stub| {
        StubAgrees(stub, ss, out, other, v, k);
      } else {
        BehindAgrees(stub, ss, out, other, |ss|, k);
      }
    }
  }

  /**
   * On a stub as the format describes it, grafting returns a file exactly when there is room for it, and that
   * file is the one which the format describes.
   */
  lemma GraftedIff(stub: Bytes, ss: seq<Section>, out: Bytes)
    requires IsStub(stub)
    ensures Grafted(stub, ss) == Ok(out) <==> CanGraft(stub, ss) && IsGraftOf(stub, ss, out)
  {
    GraftsIff(stub, ss);
    if CanGraft(stub, ss) {
      GraftedIs(stub, ss, Grafted(stub, ss).value);
      if IsGraftOf(stub, ss, out) {
        OneGraft(stub, ss, out, Grafted(stub, ss).value);
      }
    }
  }
}
