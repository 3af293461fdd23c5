/** The weakly-hard constraint of a task and the one-byte counter that watches it.
    A task with constraint 0 must meet every deadline. For a constraint w >= 1, one miss is tolerated after at least
    w - 1 met deadlines. Jobs are numbered from 0 and `hits` holds the numbers of the jobs that met their deadline. */
module WeaklyHard {

  /** The counter `previous_deadline_met` is a byte. */
  const BYTE: nat := 256

  /** Counting a met deadline. */
  function CountMet(w: nat, met: nat): (r: nat)
    requires met < BYTE
    ensures r < BYTE
  {
    if w == 0 then met else (met + 1) % BYTE
  }

  /** check_weakly_hard: whether a miss that finds the counter at `met` breaks the constraint. */
  predicate MissBreaks(w: nat, met: nat) {
    w == 0 || met < w - 1
  }

  /** How many jobs just before `job` met their deadline, without a gap. A virtual miss precedes job 0. */
  function RunBefore(hits: set<nat>, job: nat): (run: nat)
    ensures run <= job
    ensures forall j :: job - run <= j < job ==> j in hits
    ensures run < job ==> job - run - 1 !in hits
  {
    if job == 0 || job - 1 !in hits then 0 else 1 + RunBefore(hits, job - 1)
  }

  /** Only the jobs before `job` matter. */
  lemma {:induction false} RunBeforeDependsOnPast(hits: set<nat>, hits': set<nat>, job: nat)
    requires forall j :: 0 <= j < job ==> (j in hits <==> j in hits')
    ensures RunBefore(hits, job) == RunBefore(hits', job)
  {
    if job > 0 {
      RunBeforeDependsOnPast(hits, hits', job - 1);
    }
  }

  /** The definition over windows: among the first `jobs` jobs any two misses, counting the virtual one at -1, are at
      least w jobs apart. */
  ghost predicate WindowHolds(w: nat, hits: set<nat>, jobs: nat) {
    if w == 0 then forall j :: 0 <= j < jobs ==> j in hits
    else forall i, j :: -1 <= i < j < jobs && Missed(hits, i) && Missed(hits, j) ==> j - i >= w
  }

  ghost predicate Missed(hits: set<nat>, job: int) {
    job < 0 || job !in hits
  }

  /** What the byte counter reports: some miss found it too low. */
  ghost predicate Flagged(w: nat, hits: set<nat>, jobs: nat) {
    exists j: nat :: j < jobs && j !in hits && MissBreaks(w, RunBefore(hits, j) % BYTE)
  }

  /** A broken window is always reported. */
  lemma BrokenWindowIsFlagged(w: nat, hits: set<nat>, jobs: nat)
    requires !WindowHolds(w, hits, jobs)
    ensures Flagged(w, hits, jobs)
  {
    if w > 0 {
      var i, j :| -1 <= i < j < jobs && Missed(hits, i) && Missed(hits, j) && j - i < w;
      var run := RunBefore(hits, j);
      assert i >= 0 ==> i !in hits;
      assert run <= j - 1 - i;
      assert run % BYTE <= run;
      assert MissBreaks(w, RunBefore(hits, j) % BYTE);
    }
  }

  /** When the two disagree: the window holds but a run of at least 256 met deadlines came round to a low count. */
  lemma FlaggedThoughWindowHolds(w: nat, hits: set<nat>, jobs: nat)
    requires WindowHolds(w, hits, jobs)
    ensures Flagged(w, hits, jobs) <==>
            exists j: nat :: j < jobs && j !in hits && RunBefore(hits, j) >= BYTE && RunBefore(hits, j) % BYTE < w - 1
  {
    forall j: nat | j < jobs && j !in hits && MissBreaks(w, RunBefore(hits, j) % BYTE)
      ensures RunBefore(hits, j) >= BYTE && RunBefore(hits, j) % BYTE < w - 1
    {
      var i := j - 1 - RunBefore(hits, j);
      assert Missed(hits, i) && Missed(hits, j);
    }
    if exists j: nat :: j < jobs && j !in hits && RunBefore(hits, j) >= BYTE && RunBefore(hits, j) % BYTE < w - 1 {
      var j: nat :| j < jobs && j !in hits && RunBefore(hits, j) >= BYTE && RunBefore(hits, j) % BYTE < w - 1;
      assert MissBreaks(w, RunBefore(hits, j) % BYTE);
    }
  }

  /** As long as no run reaches 256, the byte counter decides the window definition. */
  lemma CounterDecidesWindow(w: nat, hits: set<nat>, jobs: nat)
    requires forall j: nat :: j < jobs && j !in hits ==> RunBefore(hits, j) < BYTE
    ensures Flagged(w, hits, jobs) <==> !WindowHolds(w, hits, jobs)
  {
    if WindowHolds(w, hits, jobs) {
      FlaggedThoughWindowHolds(w, hits, jobs);
    } else {
      BrokenWindowIsFlagged(w, hits, jobs);
    }
  }

  /** The byte is too small: 256 met deadlines and then one miss keep a window of 2 but are reported as a break. */
  lemma ByteCounterFalseAlarm(hits: set<nat>)
    requires forall j: nat :: j in hits <==> j < BYTE
    ensures WindowHolds(2, hits, BYTE + 1) && Flagged(2, hits, BYTE + 1)
  {
    var run := RunBefore(hits, BYTE);
    assert run < BYTE ==> BYTE - run - 1 in hits;
    assert MissBreaks(2, run % BYTE);
  }

  /** The counter after the first `jobs` jobs, folded over their outcomes, is the length of the last run modulo 256. */
  lemma {:induction false} CounterIsRun(w: nat, hits: set<nat>, jobs: nat)
    requires w > 0
    ensures Counter(w, hits, jobs) == RunBefore(hits, jobs) % BYTE
  {
    if jobs > 0 {
      CounterIsRun(w, hits, jobs - 1);
      SuccessorModByte(RunBefore(hits, jobs - 1));
    }
  }

  lemma SuccessorModByte(run: nat)
    ensures (run + 1) % BYTE == (run % BYTE + 1) % BYTE
  {
  }

  function Counter(w: nat, hits: set<nat>, jobs: nat): (met: nat)
    ensures met < BYTE
  {
    if jobs == 0 then 0
    else if jobs - 1 in hits then CountMet(w, Counter(w, hits, jobs - 1))
    else 0
  }
}
