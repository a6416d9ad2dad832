/** Division facts about natural numbers that the solver needs spelled out. */
module Arithmetic {

  lemma Gap(p: nat, q: nat, a: nat)
    requires p < q
    ensures p * a + a <= q * a
  {
    assert (q - p - 1) * a >= 0;
    assert (q - p - 1) * a == q * a - p * a - a;
  }

  lemma Euclid(q: nat, r: nat, q': nat, r': nat, a: nat)
    requires r < a && r' < a && q * a + r == q' * a + r'
    ensures q == q' && r == r'
  {
    if q < q' {
      Gap(q, q', a);
    } else if q' < q {
      Gap(q', q, a);
    }
  }

  lemma ModOfSum(q: nat, r: nat, a: nat)
    requires r < a
    ensures (q * a + r) % a == r
  {
    var x := q * a + r;
    assert x == x / a * a + x % a;
    Euclid(q, r, x / a, x % a, a);
  }

  lemma ModMinusOne(a: nat)
    requires a > 0
    ensures (-1) % a == a - 1
  {
    assert -1 / a * a + (-1) % a == -1;
  }

  lemma MultipleMod(q: nat, a: nat)
    requires a > 0
    ensures (q * a) % a == 0
  {
    ModOfSum(q, 0, a);
  }

  lemma NextMultiple(x: nat, y: nat, a: nat)
    requires a > 0 && x % a == 0 && y % a == 0 && x < y
    ensures x + a <= y
  {
    var p, q := x / a, y / a;
    assert x == p * a + x % a && y == q * a + y % a;
    if q < p {
      Gap(q, p, a);
    } else if p < q {
      Gap(p, q, a);
    }
  }

  lemma SumOfMultiples(x: nat, y: nat, a: nat)
    requires a > 0 && x % a == 0 && y % a == 0
    ensures (x + y) % a == 0
  {
    assert x + y == (x / a + y / a) * a;
    MultipleMod(x / a + y / a, a);
  }

  lemma MultipleOfMultiple(x: nat, coarse: nat, fine: nat)
    requires fine > 0 && coarse > 0 && coarse % fine == 0 && x % coarse == 0
    ensures x % fine == 0
  {
    var p, q := x / coarse, coarse / fine;
    assert x == p * (q * fine);
    assert p * (q * fine) == (p * q) * fine;
    MultipleMod(p * q, fine);
  }

  lemma DivMod(v: nat, d: nat) returns (q: nat, r: nat)
    requires d > 0
    ensures q == v / d && r == v % d && r < d && v == d * q + r
  {
    q, r := v / d, v % d;
  }

  lemma TwoDigits(q: nat, r: nat, s: nat, d: nat, m: nat)
    requires r < m && s < d
    ensures d * r + s < d * m
    ensures d * (m * q + r) + s == q * (d * m) + (d * r + s)
  {
    Gap(r, m, d);
    assert d * (m * q + r) == d * (m * q) + d * r;
    assert d * (m * q) == q * (d * m);
  }

  /** Splitting off the lowest digit in base `d`. */
  lemma SplitMod(v: nat, d: nat, m: nat)
    requires d > 0 && m > 0
    ensures d * m > 0 && v % d + d * (v / d % m) == v % (d * m)
  {
    var h, s := DivMod(v, d);
    var q, r := DivMod(h, m);
    TwoDigits(q, r, s, d, m);
    ModOfSum(q, d * r + s, d * m);
  }
}
