/**
 Products and quotients.
 */
module Arithmetic {

  // A multiple of a number is at least as far from zero, on the same side.
  lemma Grows(k: int, d: int)
    requires k >= 1
    ensures d >= 0 ==> k * d >= d && d * k >= d
    ensures d <= 0 ==> k * d <= d && d * k <= d
  {
  }

  lemma Gap(q: int, r: int, d: nat)
    requires q < r
    ensures q * d + d <= r * d
  {
    assert r * d == q * d + (r - q) * d;
    Grows(r - q, d);
  }

  lemma MulMonotone(q: int, r: int, d: nat)
    requires q <= r
    ensures q * d <= r * d
  {
    if q < r { Gap(q, r, d); }
  }

  // Quotient and remainder are unique.
  lemma Remainder(x: nat, d: nat, q: nat, r: nat)
    requires d >= 1 && x == q * d + r && r < d
    ensures x % d == r && x / d == q
  {
    var q', r' := x / d, x % d;
    assert x == q' * d + r';
    if q > q' { Gap(q', q, d); } else if q < q' { Gap(q, q', d); }
  }
}
