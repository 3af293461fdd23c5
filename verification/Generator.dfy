/** The admission tests of the task-set generator against the demand condition that decides RTO. */
module Generator {
  import opened Arithmetic
  import opened Periodic
  import opened PeriodicTasks
  import opened Demand
  import opened TaskInvariants
  import opened Schedulability
  import opened Exactness
  import opened DemandTest

  const LOWEST_PERIOD: nat := 20
  const HIGHEST_PERIOD: nat := 100
  const HIGHEST_WH: nat := 5
  const MAX_HIPERPERIOD: nat := 10000
  const MAX_L: nat := 1000000

  // ----- how many lengths the test needs

  /** What the generator's loops on periods, constraints and hyperperiod let through; h is the hyperperiod. */
  ghost predicate Generated(ps: seq<Params>, h: nat)
    requires ValidTaskSet(ps)
  {
    0 < h < MAX_HIPERPERIOD && forall p <- ps :: InRange(p) && h % p.period == 0
  }

  /** The ranges of generatePeriods, generateWeaklyHard and check_utilization */
  predicate InRange(p: Params) {
    p.Valid() && LOWEST_PERIOD <= p.period <= HIGHEST_PERIOD && p.constraint <= HIGHEST_WH
    && 10 * p.duration < 7 * p.period
  }

  lemma Regroup(a: int, b: int, c: int, d: int)
    ensures (a * b) * (c * d) == (a * c) * (b * d)
  {
    assert (a * b) * (c * d) == a * (b * (c * d));
    assert b * (c * d) == c * (b * d);
    assert (a * c) * (b * d) == a * (c * (b * d));
  }

  /** Sixty hyperperiods hold a whole number of patterns, as 60 is a multiple of every constraint up to 5. */
  lemma RepeatsAfterSixty(alg: Algorithm, p: Params, h: nat)
    requires p.Valid() && p.constraint <= HIGHEST_WH && h % p.period == 0
    ensures (60 * h) % Stride(alg, p) == 0
  {
    var w := if Tolerance(alg, p) == 0 then 1 else Tolerance(alg, p);
    var times, jobs, stride := SixtyTimes(w), h / p.period, Stride(alg, p);
    assert stride == w * p.period;
    assert h == jobs * p.period;
    hide Stride, Tolerance;
    Regroup(times, w, jobs, p.period);
    DivModUnique(60 * h, stride, times * jobs, 0);
  }

  function SixtyTimes(w: nat): (times: nat)
    requires 1 <= w <= HIGHEST_WH
    ensures times * w == 60
  {
    60 / w
  }

  /** The bound MAX_L of the generator's test is high enough: for every set in its ranges, the demand fits for all lengths
      if it fits for those below MAX_L. */
  lemma TestBelowMaxL(alg: Algorithm, ps: seq<Params>, h: nat)
    requires ValidTaskSet(ps) && Generated(ps, h)
    ensures DemandFits(alg, ps) <==> forall len: nat :: 0 < len < MAX_L ==> TotalDemand(alg, ps, len) <= len
  {
    hide TotalDemand, Stride, DemandFits;
    forall i | 0 <= i < |ps| ensures ps[i].Valid() && (60 * h) % Stride(alg, ps[i]) == 0 {
      assert ps[i] in ps;
      RepeatsAfterSixty(alg, ps[i], h);
    }
    FiniteTest(alg, ps, 60 * h);
    NothingAtOnce(alg, ps);
    FitsMeaning(alg, ps);
  }

  lemma {:induction false} NothingAtOnce(alg: Algorithm, ps: seq<Params>)
    requires ValidTaskSet(ps)
    ensures TotalDemand(alg, ps, 0) == 0
  {
    hide TotalDemand, ValidTaskSet;
    FirstDemand(alg, ps, 0);
    if ps != [] {
      NothingAtOnce(alg, ps[1..]);
    }
  }

  lemma FitsMeaning(alg: Algorithm, ps: seq<Params>)
    requires ValidTaskSet(ps)
    ensures DemandFits(alg, ps) <==> forall len: nat :: TotalDemand(alg, ps, len) <= len
  {
  }

  // ----- check_sufficient_condition

  /** The jobs of one task in the sum: the whole part of len/period - len/(period * w). The generator computes the
      quotients in floating point; here they are exact. */
  function GeneratorJobs(p: Params, len: nat): int
    requires p.Valid()
  {
    var skipped := if p.constraint == 0 then 0.0 else len as real / (p.period * p.constraint) as real;
    (len as real / p.period as real - skipped).Floor
  }

  function GeneratorShare(p: Params, len: nat): int
    requires p.Valid()
  {
    p.duration * GeneratorJobs(p, len)
  }

  ghost function GeneratorDemand(ps: seq<Params>, len: nat): int
    requires ValidTaskSet(ps)
  {
    if ps == [] then 0
    else
      assert ps[0].Valid();
      GeneratorShare(ps[0], len) + GeneratorDemand(ps[1..], len)
  }

  /** The length ends early in a job, compared with how far it is into the skip pattern. */
  predicate OneShort(p: Params, len: nat)
    requires p.Valid()
  {
    p.constraint > 0 && (len % p.period) * p.constraint < len % (p.period * p.constraint)
  }

  lemma FloorIs(x: real, n: int)
    requires n as real <= x < (n + 1) as real
    ensures x.Floor == n
  {
  }

  lemma Scale(k: int, d: int, into: int, w: int)
    ensures (k * d + into) * w - (k * d + into) == (k * w - k) * d + (into * w - into)
  {
    calc {
      (k * d + into) * w;
      (k * d) * w + into * w;
      (k * w) * d + into * w;
    }
    assert (k * w - k) * d == (k * w) * d - k * d;
  }

  lemma ScalePattern(k: nat, j: nat, r: nat, period: nat, w: nat)
    ensures var d, into := period * w, j * period + r;
            (k * d + into) * w - (k * d + into) == (k * w - k + j) * d + (r * w - into)
  {
    var d, into := period * w, j * period + r;
    Scale(k, d, into, w);
    assert into * w == j * d + r * w;
    assert (k * w - k + j) * d == (k * w - k) * d + j * d;
  }

  /** The difference of the two quotients, times period * w: the red jobs, and how far the length is beyond them. */
  lemma QuotientsInIntegers(period: nat, w: nat, len: nat)
    requires period > 0 && w > 0
    ensures len * w - len == Reds(w, len / period) * (period * w) + ((len % period) * w - len % (period * w))
  {
    hide Reds;
    var m, r := len / period, len % period;
    var k, j, d := m / w, m % w, period * w;
    PatternPosition(period, w, len);
    ScalePattern(k, j, r, period, w);
    RedsOfPattern(w, m);
    Combine(len, Reds(w, m), k, j, r, j * period + r, d, w);
  }

  lemma Combine(len: int, reds: int, k: int, j: int, r: int, into: int, d: int, w: int)
    requires len == k * d + into && reds == k * w - k + j
    requires (k * d + into) * w - (k * d + into) == (k * w - k + j) * d + (r * w - into)
    ensures len * w - len == reds * d + (r * w - into)
  {
  }

  lemma RedsOfPattern(w: nat, m: nat)
    requires w > 0
    ensures Reds(w, m) == (m / w) * w - m / w + m % w
  {
  }

  lemma SharesInIntegers(period: nat, w: nat, len: nat)
    requires period > 0 && w > 0
    ensures period * w > 0
    ensures var short := (len % period) * w < len % (period * w);
            var n := Reds(w, len / period) - if short then 1 else 0;
            n * (period * w) <= len * w - len < (n + 1) * (period * w)
  {
    QuotientsInIntegers(period, w, len);
    PatternPosition(period, w, len);
    MulMono(len % period + 1, period, w);
    var d, reds := period * w, Reds(w, len / period);
    assert (len % period + 1) * w == (len % period) * w + w;
    hide Reds;
    Neighbours(reds, d);
  }

  lemma Neighbours(n: int, d: int)
    ensures (n - 1) * d == n * d - d && (n + 1) * d == n * d + d
  {
  }

  lemma Reassociate(k: int, w: int, j: int, period: int)
    ensures (k * w + j) * period == k * (period * w) + j * period
  {
    assert (k * w) * period == k * (period * w);
  }

  lemma Within(j: nat, r: nat, period: nat, w: nat)
    requires j < w && r < period
    ensures 0 <= j * period + r < period * w
  {
    MulMono(j + 1, w, period);
  }

  lemma PatternPosition(period: nat, w: nat, len: nat)
    requires period > 0 && w > 0
    ensures period * w > 0
    ensures var m := len / period;
            var into := (m % w) * period + len % period;
            len % (period * w) == into && into < period * w && len == (m / w) * (period * w) + into
  {
    var m, r := len / period, len % period;
    var k, j := m / w, m % w;
    assert len == m * period + r && m == k * w + j;
    Reassociate(k, w, j, period);
    Within(j, r, period, w);
    DivModUnique(len, period * w, k, j * period + r);
  }

  /** The difference of the quotients over a common denominator */
  lemma OverOneDenominator(len: nat, period: nat, w: nat)
    requires period > 0 && w > 0 && period * w > 0
    ensures len as real / period as real - len as real / (period * w) as real
         == (len * w - len) as real / (period * w) as real
  {
    assert (period * w) as real == period as real * w as real;
    assert (len * w) as real == len as real * w as real;
    assert len as real / period as real == (len as real * w as real) / (period as real * w as real);
  }

  lemma FloorOfQuotient(a: int, d: nat, n: int)
    requires d > 0 && n * d <= a < (n + 1) * d
    ensures (a as real / d as real).Floor == n
  {
    assert (n * d) as real == n as real * d as real;
    assert ((n + 1) * d) as real == (n + 1) as real * d as real;
    DivideBounds(n as real, a as real, (n + 1) as real, d as real);
    FloorIs(a as real / d as real, n);
  }

  lemma DivideBounds(low: real, x: real, high: real, d: real)
    requires d > 0.0 && low * d <= x < high * d
    ensures low <= x / d < high
  {
    assert (x / d) * d == x;
    Unscale(low, x / d, d);
    Unscale(high, x / d, d);
  }

  /** The bracket in the sum */
  lemma QuotientFloor(len: nat, period: nat, w: nat)
    requires period > 0 && w > 0 && period * w > 0
    ensures (len as real / period as real - len as real / (period * w) as real).Floor
         == Reds(w, len / period) - if (len % period) * w < len % (period * w) then 1 else 0
  {
    hide Reds;
    SharesInIntegers(period, w, len);
    OverOneDenominator(len, period, w);
    var n := Reds(w, len / period) - if (len % period) * w < len % (period * w) then 1 else 0;
    FloorOfQuotient(len * w - len, period * w, n);
  }

  lemma JobsExactly(p: Params, len: nat)
    requires p.Valid()
    ensures GeneratorJobs(p, len) == Reds(p.constraint, len / p.period) - if OneShort(p, len) then 1 else 0
  {
    hide Reds;
    if p.constraint == 0 {
      WholeQuotient(len, p.period);
    } else {
      Positive(p.period, p.constraint);
      QuotientFloor(len, p.period, p.constraint);
    }
  }

  lemma WholeQuotient(len: nat, period: nat)
    requires period > 0
    ensures (len as real / period as real - 0.0).Floor == Reds(0, len / period)
  {
    FloorOfQuotient(len, period, len / period);
  }

  lemma Positive(a: nat, b: nat)
    requires a > 0 && b > 0
    ensures a * b > 0
  {
  }

  /** The sum counts each task's red jobs, or one less. */
  lemma ShareExactly(p: Params, len: nat)
    requires p.Valid()
    ensures GeneratorShare(p, len) + (if OneShort(p, len) then p.duration else 0) == OneDemand(RTO, p, len)
  {
    hide Reds, GeneratorJobs, OneShort;
    JobsExactly(p, len);
    OneLess(p.duration, Reds(p.constraint, len / p.period));
  }

  lemma OneLess(d: int, n: int)
    ensures d * (n - 1) + d == d * n
  {
  }

  /** What the sum misses: one job of each task that the length catches short. */
  ghost function Shortfall(ps: seq<Params>, len: nat): nat
    requires ValidTaskSet(ps)
  {
    if ps == [] then 0
    else
      assert ps[0].Valid();
      (if OneShort(ps[0], len) then ps[0].duration else 0) + Shortfall(ps[1..], len)
  }

  lemma {:induction false} SumAndShortfall(ps: seq<Params>, len: nat)
    requires ValidTaskSet(ps)
    ensures GeneratorDemand(ps, len) + Shortfall(ps, len) == TotalDemand(RTO, ps, len)
  {
    FirstDemand(RTO, ps, len);
    hide TotalDemand, GeneratorShare, OneShort, OneDemand;
    if ps != [] {
      ShareExactly(ps[0], len);
      SumAndShortfall(ps[1..], len);
    }
  }

  /** The sum never exceeds the length. */
  ghost predicate PassesSum(ps: seq<Params>)
    requires ValidTaskSet(ps)
  {
    forall len: nat :: GeneratorDemand(ps, len) <= len
  }

  /** The sum leaves room for its own shortfall. */
  ghost predicate ShortfallFits(ps: seq<Params>)
    requires ValidTaskSet(ps)
  {
    forall len: nat :: GeneratorDemand(ps, len) + Shortfall(ps, len) <= len
  }

  lemma ShortfallFitsIffDemandFits(ps: seq<Params>)
    requires ValidTaskSet(ps)
    ensures ShortfallFits(ps) <==> DemandFits(RTO, ps)
  {
    hide TotalDemand, GeneratorDemand, Shortfall;
    if ShortfallFits(ps) {
      forall len: nat ensures TotalDemand(RTO, ps, len) <= len {
        SumAndShortfall(ps, len);
      }
    }
    if DemandFits(RTO, ps) {
      forall len: nat ensures GeneratorDemand(ps, len) + Shortfall(ps, len) <= len {
        SumAndShortfall(ps, len);
        assert TotalDemand(RTO, ps, len) <= len;
      }
    }
  }

  /**
   * The condition of the sum against the one that decides RTO. RTO keeps every constraint exactly if the sum leaves room
   * for its own shortfall at every length; so passing the sum is necessary.
   */
  lemma SumAgainstDemand(ps: seq<Params>)
    requires ValidTaskSet(ps)
    ensures NeverBroken(RTO, ps) <==> ShortfallFits(ps)
    ensures NeverBroken(RTO, ps) ==> PassesSum(ps)
  {
    hide NeverBroken, DemandFits, GeneratorDemand, Shortfall;
    RtoNeverBrokenIffDemandFits(ps);
    ShortfallFitsIffDemandFits(ps);
  }

  lemma {:induction false} NoShortfall(ps: seq<Params>, len: nat)
    requires ValidTaskSet(ps) && forall p <- ps :: p.constraint <= 1
    ensures Shortfall(ps, len) == 0
  {
    if ps != [] {
      assert ps[0] in ps && ps[0].Valid();
      OneShortNeedsTwo(ps[0], len);
      NoShortfall(ps[1..], len);
    }
  }

  lemma OneShortNeedsTwo(p: Params, len: nat)
    requires p.Valid() && p.constraint <= 1
    ensures !OneShort(p, len)
  {
  }

  /** Passing the sum is enough when no task has a constraint above 1. */
  lemma SumDecidesWithoutSkips(ps: seq<Params>)
    requires ValidTaskSet(ps) && forall p <- ps :: p.constraint <= 1
    ensures PassesSum(ps) <==> NeverBroken(RTO, ps)
  {
    hide NeverBroken, GeneratorDemand, Shortfall;
    SumAgainstDemand(ps);
    forall len: nat ensures Shortfall(ps, len) == 0 {
      NoShortfall(ps, len);
    }
  }

  /** Otherwise it is not: two tasks with period 20, duration 13 and constraint 2, which the generator can draw, pass both
      conditions at every length, but RTO breaks their constraint. */
  lemma GeneratorAdmitsBrokenSet()
    ensures var ps := [Params(20, 13, 2), Params(20, 13, 2)];
            && ValidTaskSet(ps) && Generated(ps, 20)
            && NecessarySum(ps) <= 1.0 && PassesSum(ps) && !NeverBroken(RTO, ps)
  {
    hide NeverBroken, Shortfall;
    var p := Params(20, 13, 2);
    var ps := [p, p];
    assert ps[1..] == [p] && ps[1..][1..] == [];
    forall len: nat ensures GeneratorDemand(ps, len) <= len {
      assert GeneratorDemand(ps, len) == GeneratorShare(p, len) + GeneratorDemand([p], len);
      assert GeneratorDemand([p], len) == GeneratorShare(p, len) + GeneratorDemand([], len);
      ShareOfForty(len);
    }
    TwoAreShort(ps);
    SumAgainstDemand(ps);
    assert NecessarySum(ps) == NecessaryShare(p) + NecessarySum([p]);
    assert NecessarySum([p]) == NecessaryShare(p) + NecessarySum([]);
  }

  lemma ShareOfForty(len: nat)
    ensures 2 * GeneratorShare(Params(20, 13, 2), len) <= len
  {
    assert len as real / 20.0 - len as real / 40.0 == len as real / 40.0;
    FloorOfQuotient(len, 40, len / 40);
    assert GeneratorShare(Params(20, 13, 2), len) == 13 * (len / 40);
  }

  lemma TwoAreShort(ps: seq<Params>)
    requires ps == [Params(20, 13, 2), Params(20, 13, 2)]
    ensures ValidTaskSet(ps) && GeneratorDemand(ps, 20) + Shortfall(ps, 20) > 20
  {
    var p := Params(20, 13, 2);
    assert ps[1..] == [p] && [p][1..] == [];
    assert OneShort(p, 20);
    assert Shortfall(ps, 20) == 13 + Shortfall([p], 20);
    assert Shortfall([p], 20) == 13 + Shortfall([], 20);
    assert 20.0 / 20.0 - 20.0 / 40.0 == 0.5;
    assert GeneratorShare(p, 20) == 0;
    assert GeneratorDemand(ps, 20) == GeneratorShare(p, 20) + GeneratorDemand([p], 20);
    assert GeneratorDemand([p], 20) == GeneratorShare(p, 20) + GeneratorDemand([], 20);
  }

  /** check_sufficient_condition: the sum for each length below MAX_L, in turn. The source returns 1 where the sum exceeds
      the length, and 1 at the end. `stop` is the length at which the loop ends. */
  method CheckSufficientCondition(ps: seq<Params>) returns (r: int, stop: nat)
    requires ValidTaskSet(ps)
    ensures r == 1
    ensures 1 <= stop <= MAX_L && forall len :: 1 <= len < stop ==> GeneratorDemand(ps, len) <= len
    ensures stop < MAX_L ==> GeneratorDemand(ps, stop) > stop
    ensures r == 1 && !NeverBroken(RTO, ps) <==> !DemandFits(RTO, ps)
  {
    hide NeverBroken, DemandFits, GeneratorShare;
    RtoNeverBrokenIffDemandFits(ps);
    stop := 1;
    while stop < MAX_L
      invariant 1 <= stop <= MAX_L
      invariant forall len :: 1 <= len < stop ==> GeneratorDemand(ps, len) <= len
    {
      var total := 0;
      for j := 0 to |ps|
        invariant total == GeneratorDemand(ps[..j], stop)
      {
        var p := ps[j];
        assert p.Valid();
        SumOfMore(ps[..j], p, stop);
        assert ps[..j + 1] == ps[..j] + [p];
        total := total + GeneratorShare(p, stop);
      }
      assert ps[..|ps|] == ps;
      Unscale(total as real, stop as real, 1.0 / stop as real);
      if total as real / stop as real > 1.0 {
        return 1, stop;
      }
      stop := stop + 1;
    }
    r := 1;
  }

  lemma {:induction false} SumOfMore(ps: seq<Params>, p: Params, len: nat)
    requires ValidTaskSet(ps) && p.Valid()
    ensures GeneratorDemand(ps + [p], len) == GeneratorDemand(ps, len) + GeneratorShare(p, len)
  {
    hide GeneratorShare;
    if ps == [] {
      assert ps + [p] == [p];
      assert GeneratorDemand([p], len) == GeneratorShare(p, len) + GeneratorDemand([p][1..], len);
    } else {
      assert (ps + [p])[1..] == ps[1..] + [p];
      SumOfMore(ps[1..], p, len);
    }
  }

  // ----- check_nessery_condition

  function NecessaryShare(p: Params): real
    requires p.Valid()
  {
    if p.constraint != 0 then
      (p.duration * (p.constraint - 1)) as real / (p.period * p.constraint) as real
    else p.duration as real / p.period as real
  }

  ghost function NecessarySum(ps: seq<Params>): real
    requires ValidTaskSet(ps)
  {
    if ps == [] then 0.0
    else
      assert ps[0].Valid();
      NecessaryShare(ps[0]) + NecessarySum(ps[1..])
  }

  /** Over a length after which all patterns start again, the demand is the sum times the length. */
  lemma {:induction false} DemandOverRepeat(ps: seq<Params>, h: nat)
    requires ValidTaskSet(ps) && RepeatsAfter(RTO, ps, h)
    ensures TotalDemand(RTO, ps, h) as real == h as real * NecessarySum(ps)
  {
    hide TotalDemand, NecessaryShare, OneDemand, Stride;
    FirstDemand(RTO, ps, h);
    if ps != [] {
      ShareOverRepeat(ps[0], h);
      DemandOverRepeat(ps[1..], h);
      assert (OneDemand(RTO, ps[0], h) + TotalDemand(RTO, ps[1..], h)) as real
          == OneDemand(RTO, ps[0], h) as real + TotalDemand(RTO, ps[1..], h) as real;
      DistributeReal(h as real, NecessaryShare(ps[0]), NecessarySum(ps[1..]));
    }
  }

  lemma ShareOverRepeat(p: Params, h: nat)
    requires p.Valid() && h % Stride(RTO, p) == 0
    ensures OneDemand(RTO, p, h) as real == h as real * NecessaryShare(p)
  {
    var stride := Stride(RTO, p);
    var q := h / stride;
    assert h == q * stride;
    if p.constraint == 0 {
      WholeShare(p, q);
    } else {
      PatternShare(p, q);
    }
  }

  lemma WholeShare(p: Params, q: nat)
    requires p.Valid() && p.constraint == 0
    ensures OneDemand(RTO, p, q * p.period) as real == (q * p.period) as real * NecessaryShare(p)
  {
    DivModUnique(q * p.period, p.period, q, 0);
    TimesShare(q, p.period, p.duration);
  }

  lemma PatternShare(p: Params, q: nat)
    requires p.Valid() && p.constraint > 0
    ensures OneDemand(RTO, p, q * (p.constraint * p.period)) as real
         == (q * (p.constraint * p.period)) as real * NecessaryShare(p)
  {
    hide Reds;
    var d, n := p.constraint * p.period, p.duration * (p.constraint - 1);
    RedsOverRepeat(p.period, p.constraint, q);
    Swap(p.duration, q, p.constraint - 1);
    assert d == p.period * p.constraint && d > 0 && n >= 0;
    TimesShare(q, d, n);
    assert NecessaryShare(p) == n as real / d as real;
  }

  lemma RedsOverRepeat(period: nat, w: nat, q: nat)
    requires period > 0 && w > 0
    ensures Reds(w, (q * (w * period)) / period) == q * (w - 1)
  {
    assert q * (w * period) == (q * w) * period;
    DivModUnique(q * (w * period), period, q * w, 0);
    DivModUnique(q * w, w, q, 0);
    assert q * w - q == q * (w - 1);
  }

  lemma Swap(a: int, b: int, c: int)
    ensures a * (b * c) == b * (a * c)
  {
  }

  lemma TimesShare(q: nat, d: nat, n: nat)
    requires d > 0
    ensures (q * n) as real == (q * d) as real * (n as real / d as real)
  {
    assert (q * d) as real == q as real * d as real;
    assert (q * n) as real == q as real * n as real;
    assert d as real * (n as real / d as real) == n as real;
  }

  /** The condition is necessary, as its name says: a set that RTO never breaks meets it. */
  lemma NecessaryConditionIsNecessary(ps: seq<Params>)
    requires ValidTaskSet(ps) && NeverBroken(RTO, ps)
    ensures NecessarySum(ps) <= 1.0
  {
    hide NeverBroken, TotalDemand, NecessaryShare, Stride;
    if ps != [] {
      RtoNeverBrokenIffDemandFits(ps);
      var h := LeastRepeat(RTO, ps);
      DemandOverRepeat(ps, h);
      assert TotalDemand(RTO, ps, h) <= h;
      hide NecessarySum;
      Unscale(NecessarySum(ps), 1.0, h as real);
    }
  }

  /** check_nessery_condition */
  method CheckNecessaryCondition(ps: seq<Params>) returns (r: int)
    requires ValidTaskSet(ps)
    ensures r == (if NecessarySum(ps) <= 1.0 then 1 else 0)
    ensures NeverBroken(RTO, ps) ==> r == 1
  {
    hide NeverBroken, NecessaryShare;
    var tmp := 0.0;
    for i := 0 to |ps|
      invariant tmp == NecessarySum(ps[..i])
    {
      var p := ps[i];
      assert p.Valid();
      NecessaryOfMore(ps[..i], p);
      assert ps[..i + 1] == ps[..i] + [p];
      tmp := tmp + NecessaryShare(p);
    }
    assert ps[..|ps|] == ps;
    if NeverBroken(RTO, ps) {
      NecessaryConditionIsNecessary(ps);
    }
    if tmp <= 1.0 {
      return 1;
    }
    return 0;
  }

  lemma {:induction false} NecessaryOfMore(ps: seq<Params>, p: Params)
    requires ValidTaskSet(ps) && p.Valid()
    ensures NecessarySum(ps + [p]) == NecessarySum(ps) + NecessaryShare(p)
  {
    hide NecessaryShare;
    if ps == [] {
      assert ps + [p] == [p];
      assert NecessarySum([p]) == NecessaryShare(p) + NecessarySum([p][1..]);
    } else {
      assert (ps + [p])[1..] == ps[1..] + [p];
      NecessaryOfMore(ps[1..], p);
    }
  }
}
