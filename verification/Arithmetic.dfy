/** Products and quotients of numbers that are not constants. */
module Arithmetic {
  // b * n is at least one n more than a * n.
  lemma {:induction false} MulStep(a: nat, b: nat, n: nat)
    requires a < b
    ensures a * n + n <= b * n
    decreases b
  {
    assert b * n == (b - 1) * n + n;
    if a < b - 1 { MulStep(a, b - 1, n); }
  }

  // Quotient and remainder are what they are from the equation alone.
  lemma DivIs(v: nat, d: nat, q: nat, r: nat)
    requires r < d && v == q * d + r
    ensures v / d == q && v % d == r
  {
    var p, s := v / d, v % d;
    assert v == p * d + s;
    if p < q { MulStep(p, q, d); }
    if q < p { MulStep(q, p, d); }
  }

  lemma DivBounds(v: nat, d: nat)
    requires d > 0
    ensures v / d * d <= v < v / d * d + d
  {
    assert v == v / d * d + v % d;
  }

  // Dividing by a and then by b is dividing by a * b.
  lemma DivTwice(v: nat, a: nat, b: nat)
    requires a > 0 && b > 0
    ensures a * b > 0 && v / a / b == v / (a * b)
  {
    var u := v / a;
    DivJoined(v, a, b, u, v % a, u / b, u % b);
  }

  lemma DivJoined(v: nat, a: nat, b: nat, u: nat, t: nat, q: nat, r: nat)
    requires t < a && v == u * a + t && r < b && u == q * b + r
    ensures a * b > 0 && v / (a * b) == q
  {
    var d: nat := a * b;
    MulStep(r, b, a);
    Regroup(a, b, u, q, r);
    DivIs(v, d, q, r * a + t);
  }

  lemma Regroup(a: nat, b: nat, u: nat, q: nat, r: nat)
    requires u == q * b + r
    ensures u * a == q * (a * b) + r * a && a * b == b * a
  {
  }
}
