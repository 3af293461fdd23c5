/** The least common multiple of the periods, as the task-set generator computes it. */
module Hyperperiod {
  import opened Arithmetic

  function GCD(a: nat, b: nat): nat
    decreases b
  {
    if b == 0 then a else GCD(b, a % b)
  }

  function LCM(a: nat, b: nat): nat
    requires a > 0 && b > 0
  {
    GcdDivides(a, b);
    (a / GCD(a, b)) * b
  }

  lemma {:induction false} GcdDivides(a: nat, b: nat)
    requires a > 0 || b > 0
    ensures GCD(a, b) > 0 && a % GCD(a, b) == 0 && b % GCD(a, b) == 0
    decreases b
  {
    if b == 0 {
      DivModUnique(a, a, 1, 0);
    } else {
      GcdDivides(b, a % b);
      var g := GCD(b, a % b);
      var k, l := b / g, (a % b) / g;
      assert a == (a / b) * (k * g) + l * g;
      assert (a / b) * (k * g) == ((a / b) * k) * g by { Associate(a / b, k, g); }
      assert a == ((a / b) * k + l) * g by { Spread((a / b) * k, l, g); }
      DivModUnique(a, g, (a / b) * k + l, 0);
    }
  }

  /** The greatest common divisor is an integer combination of the two numbers. */
  lemma {:induction false} Bezout(a: nat, b: nat) returns (x: int, y: int)
    ensures a * x + b * y == GCD(a, b)
    decreases b
  {
    if b == 0 {
      x, y := 1, 0;
    } else {
      var x', y' := Bezout(b, a % b);
      x, y := y', x' - (a / b) * y';
      assert a == (a / b) * b + a % b;
      assert a * y' == ((a / b) * b) * y' + (a % b) * y' by { Spread((a / b) * b, a % b, y'); }
      assert b * (x' - (a / b) * y') == b * x' - ((a / b) * b) * y' by {
        Associate(a / b, b, y');
        Associate(b, a / b, y');
      }
    }
  }

  /** The two numbers and their least common multiple in terms of the greatest common divisor. */
  lemma Cofactors(a: nat, b: nat) returns (g: nat, a': nat, b': nat)
    requires a > 0 && b > 0
    ensures g == GCD(a, b) && g > 0 && a' > 0
    ensures a == a' * g && b == b' * g && LCM(a, b) == a' * b == b' * a
  {
    GcdDivides(a, b);
    g := GCD(a, b);
    a', b' := a / g, b / g;
    Cross(a', b', g);
  }

  lemma Cross(a: int, b: int, g: int)
    ensures a * (b * g) == b * (a * g)
  {
    Associate(a, b, g);
    Associate(b, a, g);
  }

  /** LCM(a, b) is a positive common multiple. */
  lemma LcmIsMultiple(a: nat, b: nat)
    requires a > 0 && b > 0
    ensures LCM(a, b) > 0 && LCM(a, b) % a == 0 && LCM(a, b) % b == 0
  {
    hide LCM, GCD;
    var g, a', b' := Cofactors(a, b);
    DivModUnique(LCM(a, b), a, b', 0);
    DivModUnique(LCM(a, b), b, a', 0);
    MulMono(1, a', b);
  }

  /** Every common multiple is a multiple of LCM(a, b), which is therefore the least one. */
  lemma LcmIsLeast(a: nat, b: nat, m: nat)
    requires a > 0 && b > 0 && m % a == 0 && m % b == 0
    ensures LCM(a, b) > 0 && m % LCM(a, b) == 0
  {
    hide LCM, GCD;
    LcmIsMultiple(a, b);
    var g, a', b' := Cofactors(a, b);
    var x, y := Bezout(a, b);
    Combine(a, b, g, a', LCM(a, b), m, m / a, m / b, x, y);
    DivModUnique(m, LCM(a, b), (m / b) * x + (m / a) * y, 0);
  }

  lemma Combine(a: int, b: int, g: int, a': int, l: int, m: int, u: int, v: int, x: int, y: int)
    requires g > 0 && a == a' * g && l == a' * b && m == u * a && m == v * b && a * x + b * y == g
    ensures m == (v * x + u * y) * l
  {
    var q := v * x + u * y;
    assert m * g == m * (a * x) + m * (b * y) by { Distribute(m, a * x, b * y); }
    Regroup(v, b, a, x);
    Regroup(u, a, b, y);
    assert a * b == b * a;
    assert m * g == (a * b) * q by { Distribute(a * b, v * x, u * y); }
    assert a * b == l * g by { Cross(g, a', b); }
    assert (l * g) * q == (q * l) * g by { Cross(q, l, g); }
    Cancel(m, q * l, g);
  }

  lemma Regroup(v: int, b: int, a: int, x: int)
    ensures (v * b) * (a * x) == (a * b) * (v * x)
  {
    Associate(v * b, a, x);
    Associate(v, b, a);
    Associate(a * b, v, x);
  }

  lemma Cancel(a: int, b: int, c: int)
    requires c > 0 && a * c == b * c
    ensures a == b
  {
    if a < b {
      MulMono(a + 1, b, c);
    } else if b < a {
      MulMono(b + 1, a, c);
    }
  }

  ghost predicate Positive(periods: seq<nat>) {
    forall k :: 0 <= k < |periods| ==> periods[k] > 0
  }

  ghost predicate CommonMultiple(m: nat, periods: seq<nat>)
    requires Positive(periods)
  {
    forall k :: 0 <= k < |periods| ==> m % periods[k] == 0
  }

  /** The fold of the loop in calculateHiperperiod. */
  function Hyperperiod(periods: seq<nat>): (h: nat)
    requires periods != [] && Positive(periods)
    ensures h > 0
  {
    var n := |periods| - 1;
    if n == 0 then periods[0]
    else
      LcmIsMultiple(periods[n], Hyperperiod(periods[..n]));
      LCM(periods[n], Hyperperiod(periods[..n]))
  }

  lemma {:induction false} HyperperiodIsLeast(periods: seq<nat>, m: nat)
    requires periods != [] && Positive(periods)
    ensures CommonMultiple(Hyperperiod(periods), periods)
    ensures CommonMultiple(m, periods) ==> m % Hyperperiod(periods) == 0
  {
    var n := |periods| - 1;
    var h := Hyperperiod(periods);
    if n == 0 {
      DivModUnique(h, h, 1, 0);
    } else {
      var h' := Hyperperiod(periods[..n]);
      HyperperiodIsLeast(periods[..n], m);
      LcmIsMultiple(periods[n], h');
      LcmIsMultiple(periods[n], h');
      forall k | 0 <= k < n
        ensures h % periods[k] == 0
      {
        assert periods[..n][k] == periods[k];
        MultipleOfMultiple(h, h', periods[k]);
      }
      if CommonMultiple(m, periods) {
        assert CommonMultiple(m, periods[..n]);
        LcmIsLeast(periods[n], h', m);
      }
    }
  }

  lemma MultipleOfMultiple(h: nat, h': nat, p: nat)
    requires p > 0 && h' > 0 && h % h' == 0 && h' % p == 0
    ensures h % p == 0
  {
    Associate(h / h', h' / p, p);
    DivModUnique(h, p, (h / h') * (h' / p), 0);
  }

  lemma AtMostMultiple(a: nat, m: nat)
    requires a > 0 && m > 0 && m % a == 0
    ensures a <= m
  {
    if m < a {
      DivModUnique(m, a, 0, m);
    }
  }

  /** calculateHiperperiod. No value on the way exceeds the result, so an `int` that holds the result holds them all. */
  method CalculateHiperperiod(period: array<nat>, n: nat) returns (temp: nat)
    requires 1 <= n <= period.Length && forall i :: 0 <= i < n ==> period[i] > 0
    ensures temp > 0
    ensures forall i :: 0 <= i < n ==> temp % period[i] == 0
    ensures forall m: nat :: CommonMultiple(m, period[..n]) ==> m % temp == 0
    ensures forall k :: 1 <= k <= n ==> Hyperperiod(period[..k]) <= temp
  {
    temp := period[0];
    for i := 1 to n
      invariant temp == Hyperperiod(period[..i])
      invariant forall k :: 1 <= k <= i ==> Hyperperiod(period[..k]) <= temp
    {
      assert period[..i + 1][..i] == period[..i];
      LcmIsMultiple(period[i], temp);
      AtMostMultiple(temp, LCM(period[i], temp));
      temp := LCM(period[i], temp);
    }
    forall m: nat
      ensures CommonMultiple(temp, period[..n])
      ensures CommonMultiple(m, period[..n]) ==> m % temp == 0
    {
      HyperperiodIsLeast(period[..n], m);
    }
    forall i | 0 <= i < n
      ensures temp % period[i] == 0
    {
      HyperperiodIsLeast(period[..n], 0);
      assert period[..n][i] == period[i];
    }
  }
}
