/** The few facts about multiplication and remainder that the proofs rely on. */
module Arith {

  lemma ModUnique(x: int, a: nat, q: int, m: nat)
    requires a > 0 && x == a * q + m && m < a
    ensures x % a == m && x / a == q
  {
    var q', m' := x / a, x % a;
    assert x == a * q' + m';
    assert a * (q - q') == m' - m;
    assert a * (q' - q) == m - m';
    if q > q' {
      MulGe(a, q - q');
    } else if q < q' {
      MulGe(a, q' - q);
    }
  }

  lemma MulGe(a: nat, k: int)
    requires k >= 1
    ensures a * k >= a
  {
  }

  /** Stepping less than a whole period forward from a remainder. */
  lemma ModStep(x: nat, d: nat, a: nat)
    requires a > 0 && x % a + d < a
    ensures (x + d) % a == x % a + d
  {
    ModUnique(x + d, a, x / a, x % a + d);
  }

  lemma MultipleMod(q: int, a: nat)
    requires a > 0
    ensures (a * q) % a == 0
  {
    ModUnique(a * q, a, q, 0);
  }

  /** The least multiple of `a` at or above `x`; for a power of two `a`,
      `(x + a - 1) & ~(a - 1)` */
  function AlignUp(x: nat, a: nat): (r: nat)
    requires a > 0
    ensures x <= r < x + a && r % a == 0
    ensures forall p :: x <= p < r ==> p % a != 0
  {
    if x % a == 0 then x else
      AlignUpIsLeast(x, a);
      x + (a - x % a)
  }

  lemma AlignUpIsLeast(x: nat, a: nat)
    requires a > 0 && x % a != 0
    ensures (x + (a - x % a)) % a == 0
    ensures forall p :: x <= p < x + (a - x % a) ==> p % a != 0
  {
    var q := x / a;
    assert x + (a - x % a) == a * (q + 1);
    MultipleMod(q + 1, a);
    forall p | x <= p < x + (a - x % a) ensures p % a != 0 {
      ModStep(x, p - x, a);
    }
  }
}
