/** Facts about products, quotients and remainders that the solver does not
    find by itself. */
module Arithmetic {

  lemma MulMono(a: int, b: int, m: int)
    requires a <= b && 0 <= m
    ensures a * m <= b * m && m * a <= m * b
  {
  }

  /** A quotient and a remainder in range are the ones that / and % give. */
  lemma DivUnique(a: int, d: int, q: int, r: int)
    requires 0 <= r < d && a == q * d + r
    ensures a / d == q && a % d == r
  {
    var q', r' := a / d, a % d;
    assert a == q' * d + r' && 0 <= r' < d by { DivMod(a, d); }
    MulSum(q, q' - q, d);
    MulSum(q', q - q', d);
    if q < q' {
      MulMono(1, q' - q, d);
    } else if q' < q {
      MulMono(1, q - q', d);
    }
  }

  lemma DivMod(a: int, d: int)
    requires 0 < d
    ensures a == a / d * d + a % d && 0 <= a % d < d
  {
  }

  lemma MulAssoc(a: int, b: int, c: int)
    ensures a * (b * c) == (a * b) * c
  {
  }

  lemma MulSum(a: int, b: int, m: int)
    ensures (a + b) * m == a * m + b * m && m * (a + b) == m * a + m * b
  {
  }

  /** Whole multiples of a divisor leave the remainder alone. */
  lemma ModShift(a: int, n: int, d: int)
    requires 0 < d
    ensures (a + n * d) % d == a % d
  {
    DivMod(a, d);
    MulSum(a / d, n, d);
    DivUnique(a + n * d, d, a / d + n, a % d);
  }

  ghost predicate Divides(d: nat, n: nat) {
    exists q: nat :: n == q * d
  }

  lemma DividesTimes(d: nat, q: nat)
    ensures Divides(d, q * d)
  {
  }

  lemma {:induction false} DividesSum(d: nat, a: nat, b: nat, q: nat)
    requires Divides(d, a) && Divides(d, b)
    ensures Divides(d, q * a + b)
  {
    var p: nat :| a == p * d;
    var r: nat :| b == r * d;
    MulAssoc(q, p, d);
    MulSum(q * p, r, d);
    DividesTimes(d, q * p + r);
  }
}
