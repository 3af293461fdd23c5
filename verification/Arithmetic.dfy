/** The byte type, and division facts that several modules share. */
module Arithmetic {

  type byte = x: nat | x < 256

  /** Quotient and remainder are the only pair with these two properties. */
  lemma DivModUnique(x: int, d: int, q: int, r: int)
    requires x == q * d + r && 0 <= r < d
    ensures x / d == q && x % d == r
  {
    var q', r' := x / d, x % d;
    assert (q - q') * d == r' - r;
    if q > q' {
      MulMono(1, q - q', d);
    } else if q < q' {
      MulMono(1, q' - q, d);
    }
  }

  lemma MulMono(a: int, b: int, c: int)
    requires a <= b && 0 <= c
    ensures a * c <= b * c
  {
  }

  lemma Associate(a: int, b: int, c: int)
    ensures a * (b * c) == (a * b) * c
  {
  }

  lemma Spread(a: int, b: int, c: int)
    ensures (a + b) * c == a * c + b * c
  {
  }

  lemma Distribute(a: int, b: int, c: int)
    ensures a * (b + c) == a * b + a * c
  {
  }

  // ----- reals

  lemma DistributeReal(a: real, b: real, c: real)
    ensures a * (b + c) == a * b + a * c
  {
  }

  lemma MulMonoReal(a: real, b: real, c: real)
    requires a >= 0.0 && b <= c
    ensures a * b <= a * c
  {
  }

  lemma MulStrictReal(a: real, b: real, c: real)
    requires a > 0.0 && b < c
    ensures a * b < a * c
  {
  }

  lemma Unscale(a: real, b: real, d: real)
    requires d > 0.0
    ensures a * d <= b * d <==> a <= b
  {
  }

  // ----- remainders

  /** A count that wraps may be wrapped before or after an addition. */
  lemma ModOfSum(a: nat, b: nat, d: nat)
    requires d > 0
    ensures (a % d + b) % d == (a + b) % d
  {
    var x := a % d + b;
    DivModUnique(a + b, d, a / d + x / d, x % d);
  }

  lemma ModPlus(k: int, d: int)
    requires d > 0
    ensures (k + d) % d == k % d && (k + d) / d == k / d + 1
  {
    DivModUnique(k + d, d, k / d + 1, k % d);
  }
}
