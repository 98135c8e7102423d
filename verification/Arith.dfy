/** The little multiplication and division the page arithmetic needs. */
module Arith {

  lemma {:induction false} DivModUnique(x: nat, d: nat, q: nat, r: nat)
    requires 0 < d && r < d && x == q * d + r
    ensures x / d == q && x % d == r
  {
    var q', r' := x / d, x % d;
    assert x == q' * d + r';
    if q' < q {
      MulGap(q', q, d);
    } else if q < q' {
      MulGap(q, q', d);
    }
  }

  lemma MulGap(a: nat, b: nat, d: nat)
    requires a < b
    ensures a * d + d <= b * d
  {
    var k := b - a - 1;
    assert b * d == a * d + d + k * d;
  }

  lemma DivModSplit(x: nat, d: nat)
    requires 0 < d
    ensures x == (x / d) * d + x % d && x % d < d
  {
  }

  /** A product as an offset, for proofs that only ever step it. */
  function Times(a: nat, d: nat): nat {
    a * d
  }

  lemma TimesStep(a: nat, d: nat)
    ensures Times(0, d) == 0 && Times(a + 1, d) == Times(a, d) + d
  {
  }

  lemma MulStep(a: nat, d: nat)
    ensures (a + 1) * d == a * d + d
  {
  }
}
