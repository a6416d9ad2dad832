/** `align_up` with its bit mask, and the arithmetic of powers of two behind the image layout. */
module Alignment {
  import opened Arithmetic

  predicate IsPow2(a: nat) {
    a == 1 || (a > 1 && a % 2 == 0 && IsPow2(a / 2))
  }

  /** `x & !m`: the bits of `x` that are not set in `m`. */
  function AndNot(x: nat, m: nat): nat
    decreases x, 1
  {
    Bits(x, m)
  }

  function Bits(x: nat, m: nat): nat
    decreases x, 0
  {
    if x == 0 then 0 else (if m % 2 == 0 then x % 2 else 0) + 2 * AndNot(x / 2, m / 2)
  }

  /** Release arithmetic: with `a == 0` the mask `!(a - 1)` wraps to no bits at all. */
  function AlignUp(x: nat, a: nat): nat {
    if a == 0 then 0 else AndNot(x + a - 1, a - 1)
  }

  function Bit(x: nat, k: nat): nat {
    if k == 0 then x % 2 else Bit(x / 2, k - 1)
  }

  /** Bit by bit: those of `x` where `m` has none. */
  lemma {:induction false} AndNotBit(x: nat, m: nat, k: nat)
    ensures Bit(AndNot(x, m), k) == if Bit(m, k) == 1 then 0 else Bit(x, k)
  {
    var r := AndNot(x, m);
    assert r == Bits(x, m);
    if x == 0 {
      NoBits(k);
    } else {
      assert r % 2 == (if m % 2 == 0 then x % 2 else 0) && r / 2 == AndNot(x / 2, m / 2);
      if k > 0 {
        AndNotBit(x / 2, m / 2, k - 1);
      }
    }
  }

  lemma {:induction false} NoBits(k: nat)
    ensures Bit(0, k) == 0
  {
    if k > 0 {
      NoBits(k - 1);
    }
  }

  function TwoTo(k: nat): (n: nat)
    ensures n >= 1
  {
    if k == 0 then 1 else 2 * TwoTo(k - 1)
  }

  lemma {:induction false} TwoToIsPow2(k: nat)
    ensures IsPow2(TwoTo(k))
  {
    if k > 0 {
      TwoToIsPow2(k - 1);
      assert TwoTo(k) / 2 == TwoTo(k - 1) && TwoTo(k) % 2 == 0;
    }
  }

  lemma {:induction false} Exponent(a: nat) returns (k: nat)
    requires IsPow2(a)
    ensures a == TwoTo(k)
  {
    if a == 1 {
      k := 0;
    } else {
      var below := Exponent(a / 2);
      k := below + 1;
    }
  }

  lemma {:induction false} Pow2Iff(a: nat)
    ensures IsPow2(a) <==> exists k: nat :: a == TwoTo(k)
  {
    if IsPow2(a) {
      var k := Exponent(a);
    }
    forall k: nat | a == TwoTo(k) ensures IsPow2(a) {
      TwoToIsPow2(k);
    }
  }

  lemma {:induction false} MaskAll(x: nat, w: nat)
    requires x < TwoTo(w)
    ensures AndNot(x, TwoTo(w) - 1) == 0
  {
    var m := TwoTo(w) - 1;
    assert AndNot(x, m) == Bits(x, m);
    if w > 0 {
      assert m % 2 == 1 && m / 2 == TwoTo(w - 1) - 1;
      MaskAll(x / 2, w - 1);
    }
  }

  /** On words of `w` bits: `(x + a - 1) & !(a - 1)`, the subtractions wrapping around. */
  lemma {:induction false} AlignUpIsMask(x: nat, a: nat, w: nat)
    requires x + a <= TwoTo(w)
    ensures AlignUp(x, a) == AndNot((x + a - 1) % TwoTo(w), (a - 1) % TwoTo(w))
  {
    if a == 0 {
      ModMinusOne(TwoTo(w));
      MaskAll((x - 1) % TwoTo(w), w);
    } else {
      ModOfSum(0, x + a - 1, TwoTo(w));
      ModOfSum(0, a - 1, TwoTo(w));
    }
  }

  lemma {:induction false} MaskClearsLowBits(x: nat, a: nat) returns (q: nat)
    requires IsPow2(a)
    ensures AndNot(x, a - 1) == q * a
    ensures q * a <= x < q * a + a
    decreases a
  {
    assert AndNot(x, a - 1) == Bits(x, a - 1);
    if a == 1 {
      MaskZero(x);
      q := x;
    } else {
      var h := a / 2;
      assert (a - 1) % 2 == 1 && (a - 1) / 2 == h - 1;
      q := MaskClearsLowBits(x / 2, h);
      Doubled(q, h, a);
    }
  }

  lemma Doubled(q: nat, h: nat, a: nat)
    requires a == 2 * h
    ensures q * a == 2 * (q * h)
  {}

  lemma {:induction false} MaskZero(x: nat)
    ensures AndNot(x, 0) == x
  {
    assert AndNot(x, 0) == Bits(x, 0);
    if x > 0 {
      MaskZero(x / 2);
    }
  }

  /** The mask formula is the least multiple of `a` that is at least `x`. */
  lemma {:induction false} AlignUpIsLeastMultiple(x: nat, a: nat)
    requires IsPow2(a)
    ensures AlignUp(x, a) % a == 0 && x <= AlignUp(x, a) < x + a
    ensures forall y: nat :: y % a == 0 && x <= y ==> AlignUp(x, a) <= y
  {
    var q := MaskClearsLowBits(x + a - 1, a);
    MultipleMod(q, a);
    forall y: nat | y % a == 0 && x <= y
      ensures AlignUp(x, a) <= y
    {
      if y < AlignUp(x, a) {
        NextMultiple(y, AlignUp(x, a), a);
      }
    }
  }

  lemma {:induction false} AlignUpUnique(x: nat, a: nat, y: nat)
    requires IsPow2(a)
    requires y % a == 0 && x <= y < x + a
    ensures AlignUp(x, a) == y
  {
    AlignUpIsLeastMultiple(x, a);
    if AlignUp(x, a) < y {
      NextMultiple(AlignUp(x, a), y, a);
    }
  }

  lemma {:induction false} AlignUpMonotone(x: nat, y: nat, a: nat)
    requires IsPow2(a) && x <= y
    ensures AlignUp(x, a) <= AlignUp(y, a)
  {
    AlignUpIsLeastMultiple(x, a);
    AlignUpIsLeastMultiple(y, a);
  }

  lemma {:induction false} AlignUpFixed(x: nat, a: nat)
    requires IsPow2(a) && x % a == 0
    ensures AlignUp(x, a) == x
  {
    AlignUpUnique(x, a, x);
  }

  lemma {:induction false} AlignUpOffset(v: nat, l: nat, a: nat)
    requires IsPow2(a) && v % a == 0
    ensures AlignUp(v + l, a) == v + AlignUp(l, a)
  {
    AlignUpIsLeastMultiple(l, a);
    SumOfMultiples(v, AlignUp(l, a), a);
    AlignUpUnique(v + l, a, v + AlignUp(l, a));
  }

  /** Rounding to the finer alignment first does not change the coarser result. */
  lemma {:induction false} AlignUpTwice(l: nat, fine: nat, coarse: nat)
    requires IsPow2(fine) && IsPow2(coarse) && fine <= coarse
    ensures AlignUp(AlignUp(l, fine), coarse) == AlignUp(l, coarse)
    ensures AlignUp(l, fine) <= AlignUp(l, coarse)
  {
    AlignUpIsLeastMultiple(l, fine);
    AlignUpIsLeastMultiple(l, coarse);
    var c := AlignUp(l, coarse);
    CoarseIsMultiple(fine, coarse);
    MultipleOfMultiple(c, coarse, fine);
    assert AlignUp(l, fine) <= c;
    AlignUpUnique(AlignUp(l, fine), coarse, c);
  }

  lemma {:induction false} CoarseIsMultiple(fine: nat, coarse: nat)
    requires IsPow2(fine) && IsPow2(coarse) && fine <= coarse
    ensures coarse % fine == 0
    decreases fine
  {
    if fine > 1 {
      CoarseIsMultiple(fine / 2, coarse / 2);
      var q := coarse / 2 / (fine / 2);
      assert coarse / 2 == q * (fine / 2);
      assert coarse == q * fine by {
        assert 2 * (q * (fine / 2)) == q * (2 * (fine / 2));
      }
      MultipleMod(q, fine);
    }
  }
}
