/** How many jobs of a task must run, and sums over a task set. A task with constraint w >= 1 may miss one job in w. */
module Demand {
  import opened Arithmetic

  /** How many of the first m jobs are red when every w-th job is skipped (w == 0: none is). */
  function Reds(w: nat, m: nat): (r: int) {
    if w == 0 then m else m - m / w
  }

  /** Job number k is red in that pattern. */
  predicate RedJob(w: nat, k: nat) {
    w == 0 || k % w != w - 1
  }

  /** How many of the next m jobs can turn out red, at worst, when at most `credit` red ones come before the next job
      that may be missed. After such a job there are w - 1 red ones. */
  function WorstReds(w: nat, credit: nat, m: nat): (r: nat)
    requires w > 0 ==> credit < w
    decreases m
  {
    if m == 0 then 0
    else if w == 0 then m
    else if credit > 0 then 1 + WorstReds(w, credit - 1, m - 1)
    else WorstReds(w, w - 1, m - 1)
  }

  lemma RedsStep(w: nat, k: nat)
    ensures Reds(w, k + 1) == Reds(w, k) + if RedJob(w, k) then 1 else 0
  {
    if w > 0 {
      DivStep(k, w);
    }
  }

  /** Adding one moves the remainder by one, except at the end of a block. */
  lemma DivStep(k: nat, w: nat)
    requires w > 0
    ensures if k % w == w - 1 then (k + 1) % w == 0 && (k + 1) / w == k / w + 1
            else (k + 1) % w == k % w + 1 && (k + 1) / w == k / w
  {
    if k % w == w - 1 {
      DivModUnique(k + 1, w, k / w + 1, 0);
    } else {
      DivModUnique(k + 1, w, k / w, k % w + 1);
    }
  }

  lemma {:induction false} WorstRedsClosed(w: nat, credit: nat, m: nat)
    requires credit < w
    ensures WorstReds(w, credit, m) == m - (m + (w - 1 - credit)) / w
    decreases m
  {
    if m == 0 {
      DivModUnique(w - 1 - credit, w, 0, w - 1 - credit);
    } else if credit > 0 {
      WorstRedsClosed(w, credit - 1, m - 1);
    } else {
      WorstRedsClosed(w, w - 1, m - 1);
      ModPlus(m - 1, w);
    }
  }

  /** From a fresh start the worst case is the skip pattern. */
  lemma WorstRedsIsPattern(w: nat, m: nat)
    ensures WorstReds(w, if w > 0 then w - 1 else 0, m) == Reds(w, m)
  {
    if w > 0 {
      WorstRedsClosed(w, w - 1, m);
    }
  }

  lemma WorstRedsMonotone(w: nat, credit: nat, credit': nat, m: nat, m': nat)
    requires w > 0 ==> credit <= credit' < w
    requires m <= m'
    ensures WorstReds(w, credit, m) <= WorstReds(w, credit', m')
  {
    if w > 0 {
      MoreJobs(w, credit, m, m');
      MoreCredit(w, credit, credit', m');
    }
  }

  lemma {:induction false} MoreJobs(w: nat, credit: nat, m: nat, m': nat)
    requires credit < w && m <= m'
    ensures WorstReds(w, credit, m) <= WorstReds(w, credit, m')
    decreases m
  {
    if m > 0 {
      MoreJobs(w, if credit > 0 then credit - 1 else w - 1, m - 1, m' - 1);
    }
  }

  lemma {:induction false} MoreCredit(w: nat, credit: nat, credit': nat, m: nat)
    requires credit <= credit' < w
    ensures WorstReds(w, credit, m) <= WorstReds(w, credit', m) <= WorstReds(w, credit, m) + 1
    decreases m
  {
    if m > 0 {
      if credit > 0 {
        MoreCredit(w, credit - 1, credit' - 1, m - 1);
      } else if credit' > 0 {
        MoreCredit(w, credit' - 1, w - 1, m - 1);
      }
    }
  }

  // ----- sums

  function Sum(a: seq<int>): int {
    if a == [] then 0 else a[0] + Sum(a[1..])
  }

  /** Pointwise comparison carries over to sums; one place may differ by `x` more. */
  lemma {:induction false} SumShift(a: seq<int>, b: seq<int>, k: int, x: int)
    requires |a| == |b| && 0 <= k < |a|
    requires forall i :: 0 <= i < |a| && i != k ==> a[i] <= b[i]
    requires a[k] <= b[k] + x
    ensures Sum(a) <= Sum(b) + x
  {
    if k > 0 {
      SumShift(a[1..], b[1..], k - 1, x);
    } else {
      SumMonotone(a[1..], b[1..]);
    }
  }

  lemma {:induction false} SumMonotone(a: seq<int>, b: seq<int>)
    requires |a| == |b| && forall i :: 0 <= i < |a| ==> a[i] <= b[i]
    ensures Sum(a) <= Sum(b)
  {
    if a != [] {
      SumMonotone(a[1..], b[1..]);
    }
  }

  /** Two places of a sum of non-negative numbers. */
  lemma SumOfTwo(a: seq<int>, i: int, j: int)
    requires 0 <= i < |a| && 0 <= j < |a| && i != j && forall k :: 0 <= k < |a| ==> a[k] >= 0
    ensures a[i] + a[j] <= Sum(a)
  {
    var zero := seq<int>(|a|, _ => 0);
    SumOfZeros(zero);
    SumShift(zero, zero[i := a[i]], i, -a[i]);
    SumShift(zero[i := a[i]], a, j, -a[j]);
  }

  lemma {:induction false} SumOfZeros(a: seq<int>)
    requires forall k :: 0 <= k < |a| ==> a[k] == 0
    ensures Sum(a) == 0
  {
    if a != [] {
      SumOfZeros(a[1..]);
    }
  }
}
