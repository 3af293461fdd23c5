/** What the demand condition comes to for EDF: total utilisation. */
module Utilisation {
  import opened Arithmetic
  import opened WeaklyHard
  import opened Periodic
  import opened PeriodicTasks
  import opened Demand
  import opened Schedulability
  import opened Exactness
  import opened Hyperperiod
  import TaskInvariants

  /** Total of duration / period. */
  ghost function TotalUtilisation(ps: seq<Params>): real
    requires ValidTaskSet(ps)
  {
    if ps == [] then 0.0
    else
      assert ps[0].Valid();
      ps[0].duration as real / ps[0].period as real + TotalUtilisation(ps[1..])
  }

  /** A task asks for no more than its share of an interval. */
  lemma ShareOfInterval(alg: Algorithm, p: Params, len: nat)
    requires p.Valid()
    ensures (p.duration * Reds(TaskInvariants.Tolerance(alg, p), len / p.period)) as real
         <= len as real * (p.duration as real / p.period as real)
  {
    var w, k := TaskInvariants.Tolerance(alg, p), len / p.period;
    assert Reds(w, k) <= k;
    MulMono(Reds(w, k), k, p.duration);
    assert k * p.period <= len;
    var share := p.duration as real / p.period as real;
    assert p.duration as real == share * p.period as real;
    ScaleShare(share, p.period, k, len);
    assert (p.duration * k) as real == p.duration as real * k as real;
  }

  lemma ScaleShare(share: real, period: nat, k: nat, len: nat)
    requires share >= 0.0 && k * period <= len
    ensures share * period as real * k as real <= len as real * share
  {
    assert (k * period) as real == k as real * period as real;
    assert share * period as real * k as real == share * (k * period) as real;
    MulMonoReal(share, (k * period) as real, len as real);
  }

  lemma {:induction false} DemandWithinUtilisation(alg: Algorithm, ps: seq<Params>, len: nat)
    requires ValidTaskSet(ps)
    ensures TotalDemand(alg, ps, len) as real <= len as real * TotalUtilisation(ps)
  {
    if ps != [] {
      assert ps[0].Valid();
      ShareOfInterval(alg, ps[0], len);
      DemandWithinUtilisation(alg, ps[1..], len);
      assert Demands(alg, ps, len)[1..] == Demands(alg, ps[1..], len);
      DistributeReal(len as real, ps[0].duration as real / ps[0].period as real, TotalUtilisation(ps[1..]));
    }
  }

  /** A task set with total utilisation at most 1 fits, so every variant keeps all weakly-hard constraints for ever. */
  lemma FullUtilisationFits(alg: Algorithm, ps: seq<Params>)
    requires ValidTaskSet(ps) && TotalUtilisation(ps) <= 1.0
    ensures DemandFits(alg, ps)
  {
    forall len: nat
      ensures TotalDemand(alg, ps, len) <= len
    {
      hide TotalDemand, TotalUtilisation;
      DemandWithinUtilisation(alg, ps, len);
      BoundReal(TotalDemand(alg, ps, len), len, TotalUtilisation(ps));
    }
  }

  lemma BoundReal(total: int, len: nat, u: real)
    requires total as real <= len as real * u && u <= 1.0
    ensures total <= len
  {
    MulMonoReal(len as real, u, 1.0);
  }

  /** Over a common multiple of the periods, EDF's demand is the utilisation times the length. */
  lemma {:induction false} DemandOverHyperperiod(ps: seq<Params>, len: nat)
    requires ValidTaskSet(ps) && forall i {:trigger ps[i]} :: 0 <= i < |ps| ==> ps[i].Valid() && len % ps[i].period == 0
    ensures TotalDemand(EDF, ps, len) as real == len as real * TotalUtilisation(ps)
  {
    if ps != [] {
      var p := ps[0];
      DemandOverHyperperiod(ps[1..], len);
      assert Demands(EDF, ps, len)[1..] == Demands(EDF, ps[1..], len);
      var k := len / p.period;
      assert len as real == k as real * p.period as real by { assert len == k * p.period; }
      var share := p.duration as real / p.period as real;
      assert share * p.period as real == p.duration as real;
      assert len as real * share == k as real * (share * p.period as real);
      assert (p.duration * k) as real == p.duration as real * k as real;
      DistributeReal(len as real, share, TotalUtilisation(ps[1..]));
    }
  }

  lemma CommonPeriod(ps: seq<Params>) returns (h: nat)
    requires ValidTaskSet(ps) && ps != []
    ensures h > 0 && forall i {:trigger ps[i]} :: 0 <= i < |ps| ==> ps[i].Valid() && h % ps[i].period == 0
  {
    var periods := seq<nat>(|ps|, i requires 0 <= i < |ps| => ps[i].period);
    forall i | 0 <= i < |ps|
      ensures ps[i].Valid() && periods[i] > 0
    {
    }
    HyperperiodIsLeast(periods, 0);
    h := Hyperperiod.Hyperperiod(periods);
    hide Hyperperiod.Hyperperiod;
    forall i | 0 <= i < |ps|
      ensures ps[i].Valid() && h % ps[i].period == 0
    {
      assert h % periods[i] == 0;
    }
  }

  lemma EdfFitsOnlyFullUtilisation(ps: seq<Params>)
    requires ValidTaskSet(ps) && DemandFits(EDF, ps) && ps != []
    ensures TotalUtilisation(ps) <= 1.0
  {
    hide TotalDemand, TotalUtilisation;
    var h := CommonPeriod(ps);
    DemandOverHyperperiod(ps, h);
    assert TotalDemand(EDF, ps, h) <= h;
    DivideReal(TotalDemand(EDF, ps, h), h, TotalUtilisation(ps));
  }

  lemma DivideReal(total: int, h: nat, u: real)
    requires h > 0 && total <= h && total as real == h as real * u
    ensures u <= 1.0
  {
    if u > 1.0 {
      MulStrictReal(h as real, 1.0, u);
    }
  }

  /** EDF never kills a job if and only if the total utilisation is at most 1. */
  lemma EdfNeverKillsIffUtilisationAtMostOne(ps: seq<Params>)
    requires ValidTaskSet(ps)
    ensures NeverKills(EDF, ps) <==> TotalUtilisation(ps) <= 1.0
  {
    hide NeverKills, DemandFits, ValidTaskSet;
    NeverKillsIffDemandFits(EDF, ps);
    if TotalUtilisation(ps) <= 1.0 {
      FullUtilisationFits(EDF, ps);
    }
    if DemandFits(EDF, ps) && ps != [] {
      EdfFitsOnlyFullUtilisation(ps);
    }
  }
}
