/** The demand condition can be tested: it repeats, so finitely many lengths decide it. */
module DemandTest {
  import opened Arithmetic
  import opened Periodic
  import opened PeriodicTasks
  import opened Demand
  import opened TaskInvariants
  import opened Schedulability
  import opened Hyperperiod

  /** The ticks after which the skip pattern of a task starts again */
  function Stride(alg: Algorithm, p: Params): (stride: nat)
    requires p.Valid()
    ensures stride > 0
  {
    var w := Tolerance(alg, p);
    MulMono(1, if w == 0 then 1 else w, p.period);
    if w == 0 then p.period else w * p.period
  }

  /** The patterns of all tasks start again after h ticks. */
  ghost predicate RepeatsAfter(alg: Algorithm, ps: seq<Params>, h: nat)
    requires ValidTaskSet(ps)
  {
    h > 0 && forall i {:trigger ps[i]} :: 0 <= i < |ps| ==> ps[i].Valid() && h % Stride(alg, ps[i]) == 0
  }

  lemma RedsRepeat(w: nat, k: nat, q: nat)
    requires w > 0
    ensures Reds(w, k + q * w) == Reds(w, k) + Reds(w, q * w)
  {
    DivModUnique(k + q * w, w, k / w + q, k % w);
    DivModUnique(q * w, w, q, 0);
  }

  lemma QuotientRepeats(len: nat, jobs: nat, period: nat)
    requires period > 0
    ensures (len + jobs * period) / period == len / period + jobs
    ensures (jobs * period) / period == jobs
  {
    DivModUnique(len + jobs * period, period, len / period + jobs, len % period);
    DivModUnique(jobs * period, period, jobs, 0);
  }

  lemma PatternRepeats(w: nat, period: nat, len: nat, h: nat, q: nat)
    requires period > 0 && w > 0 && h == q * (w * period)
    ensures Reds(w, (len + h) / period) == Reds(w, len / period) + Reds(w, h / period)
  {
    hide Reds;
    Associate(q, w, period);
    QuotientRepeats(len, q * w, period);
    RedsRepeat(w, len / period, q);
  }

  lemma WholeRepeats(period: nat, len: nat, h: nat, q: nat)
    requires period > 0 && h == q * period
    ensures Reds(0, (len + h) / period) == Reds(0, len / period) + Reds(0, h / period)
  {
    QuotientRepeats(len, q, period);
  }

  lemma JobsRepeat(alg: Algorithm, p: Params, len: nat, h: nat)
    requires p.Valid() && h % Stride(alg, p) == 0
    ensures var w := Tolerance(alg, p);
            Reds(w, (len + h) / p.period) == Reds(w, len / p.period) + Reds(w, h / p.period)
  {
    hide Reds, Tolerance;
    var w, q := Tolerance(alg, p), h / Stride(alg, p);
    assert h == q * Stride(alg, p);
    if w == 0 {
      WholeRepeats(p.period, len, h, q);
    } else {
      PatternRepeats(w, p.period, len, h, q);
    }
  }

  lemma FirstDemand(alg: Algorithm, ps: seq<Params>, len: nat)
    requires ValidTaskSet(ps)
    ensures ps == [] ==> TotalDemand(alg, ps, len) == 0
    ensures ps != [] ==>
              && ps[0].Valid() && ValidTaskSet(ps[1..])
              && TotalDemand(alg, ps, len) == OneDemand(alg, ps[0], len) + TotalDemand(alg, ps[1..], len)
  {
    hide Reds;
    if ps != [] {
      assert ps[0] in ps;
      assert Demands(alg, ps, len)[1..] == Demands(alg, ps[1..], len);
    }
  }

  /** The work that the red jobs of one task ask for in the first `len` ticks */
  function OneDemand(alg: Algorithm, p: Params, len: nat): int
    requires p.Valid()
  {
    p.duration * Reds(Tolerance(alg, p), len / p.period)
  }

  lemma OneDemandRepeats(alg: Algorithm, p: Params, len: nat, h: nat)
    requires p.Valid() && h % Stride(alg, p) == 0
    ensures OneDemand(alg, p, len + h) == OneDemand(alg, p, len) + OneDemand(alg, p, h)
  {
    hide Reds, Stride;
    JobsRepeat(alg, p, len, h);
    Distribute(p.duration, Reds(Tolerance(alg, p), len / p.period), Reds(Tolerance(alg, p), h / p.period));
  }

  lemma {:induction false} DemandRepeats(alg: Algorithm, ps: seq<Params>, len: nat, h: nat)
    requires ValidTaskSet(ps) && RepeatsAfter(alg, ps, h)
    ensures TotalDemand(alg, ps, len + h) == TotalDemand(alg, ps, len) + TotalDemand(alg, ps, h)
  {
    hide OneDemand, Stride, TotalDemand, ValidTaskSet;
    FirstDemand(alg, ps, len);
    FirstDemand(alg, ps, h);
    FirstDemand(alg, ps, len + h);
    if ps != [] {
      OneDemandRepeats(alg, ps[0], len, h);
      DemandRepeats(alg, ps[1..], len, h);
    }
  }

  /** The demand fits for all lengths if it fits up to one after which all patterns start again. */
  lemma FiniteTest(alg: Algorithm, ps: seq<Params>, h: nat)
    requires ValidTaskSet(ps) && RepeatsAfter(alg, ps, h)
    ensures DemandFits(alg, ps) <==> forall len: nat :: len <= h ==> TotalDemand(alg, ps, len) <= len
  {
    if forall len: nat :: len <= h ==> TotalDemand(alg, ps, len) <= len {
      forall len: nat ensures TotalDemand(alg, ps, len) <= len {
        FitsBeyond(alg, ps, h, len);
      }
    }
  }

  lemma {:induction false} FitsBeyond(alg: Algorithm, ps: seq<Params>, h: nat, len: nat)
    requires ValidTaskSet(ps) && RepeatsAfter(alg, ps, h)
    requires forall l: nat :: l <= h ==> TotalDemand(alg, ps, l) <= l
    ensures TotalDemand(alg, ps, len) <= len
    decreases len
  {
    hide TotalDemand, ValidTaskSet;
    if len > h {
      FitsBeyond(alg, ps, h, len - h);
      DemandRepeats(alg, ps, len - h, h);
    }
  }

  // ----- a length after which all patterns start again

  ghost function Strides(alg: Algorithm, ps: seq<Params>): (r: seq<nat>)
    requires ValidTaskSet(ps)
    ensures |r| == |ps| && Positive(r)
  {
    seq<nat>(|ps|, i requires 0 <= i < |ps| => assert ps[i] in ps; Stride(alg, ps[i]))
  }

  lemma RepeatIsCommonMultiple(alg: Algorithm, ps: seq<Params>, l: nat)
    requires ValidTaskSet(ps)
    ensures RepeatsAfter(alg, ps, l) <==> l > 0 && CommonMultiple(l, Strides(alg, ps))
  {
    hide Stride;
    var strides := Strides(alg, ps);
    forall i | 0 <= i < |ps| ensures ps[i].Valid() && strides[i] == Stride(alg, ps[i]) {
      assert ps[i] in ps;
    }
  }

  /** The least one: the patterns start again after just its multiples. */
  lemma LeastRepeat(alg: Algorithm, ps: seq<Params>) returns (h: nat)
    requires ValidTaskSet(ps) && ps != []
    ensures RepeatsAfter(alg, ps, h)
    ensures forall l: nat :: RepeatsAfter(alg, ps, l) <==> l > 0 && l % h == 0
  {
    hide *;
    h := Hyperperiod.Hyperperiod(Strides(alg, ps));
    HyperperiodIsLeast(Strides(alg, ps), 0);
    RepeatIsCommonMultiple(alg, ps, h);
    forall l: nat ensures RepeatsAfter(alg, ps, l) <==> l > 0 && l % h == 0 {
      RepeatIsCommonMultiple(alg, ps, l);
      HyperperiodIsLeast(Strides(alg, ps), l);
      if l > 0 && l % h == 0 {
        RepeatsAfterMultiple(alg, ps, h, l / h);
      }
    }
  }

  lemma RepeatsAfterMultiple(alg: Algorithm, ps: seq<Params>, h: nat, q: nat)
    requires ValidTaskSet(ps) && RepeatsAfter(alg, ps, h) && q * h > 0
    ensures RepeatsAfter(alg, ps, q * h)
  {
    hide Stride;
    forall i | 0 <= i < |ps| ensures ps[i].Valid() && (q * h) % Stride(alg, ps[i]) == 0 {
      MultipleOf(q, h, Stride(alg, ps[i]));
    }
  }

  lemma MultipleOf(q: nat, h: nat, d: nat)
    requires d > 0 && h % d == 0
    ensures (q * h) % d == 0
  {
    assert q * h == q * ((h / d) * d) == (q * (h / d)) * d;
    DivModUnique(q * h, d, q * (h / d), 0);
  }
}
