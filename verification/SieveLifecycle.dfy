/** The running flag: the exit routine may trust what it reads once the flag is down. */
module SieveLifecycle {
  import opened Sums
  import opened SieveMachine
  import opened SieveBarrier

  ghost predicate FlagInv(s: State) {
    s.beginFlag == RUNNING || (s.beginFlag == 0 && 3 <= s.history.phase)
  }

  lemma {:induction false} FlagHolds(c: Config, sched: seq<nat>)
    requires Accepted(c) && Schedule(c, sched)
    ensures FlagInv(Run(c, Init(c), sched))
  {
    if sched != [] {
      var a := sched[..|sched|-1];
      FlagHolds(c, a);
      BarrierHolds(c, a);
      assert InPhase(Run(c, Init(c), a).pcs[sched[|sched|-1]], Run(c, Init(c), a).history.phase);
    }
  }

  lemma PastComputeStep(c: Config, s: State, t: nat)
    requires WellFormed(c, s) && t < c.threads && PastCompute(s.pcs[t])
    ensures var s' := Step(c, s, t);
      PastCompute(s'.pcs[t]) && s'.numbers == s.numbers && s'.counters == s.counters
  {}

  /** Threads that have left `compute` never write the results again. */
  lemma {:induction false} PastComputeFreezes(c: Config, s: State, sched: seq<nat>)
    requires WellFormed(c, s) && Schedule(c, sched) && AllPastCompute(s)
    ensures var s' := Run(c, s, sched);
      AllPastCompute(s') && s'.numbers == s.numbers && s'.counters == s.counters
  {
    if sched != [] {
      PastComputeFreezes(c, s, sched[..|sched|-1]);
      PastComputeStep(c, Run(c, s, sched[..|sched|-1]), sched[|sched|-1]);
    }
  }

  /** Once the flag is down every thread has finished `compute`, and whatever the threads still
      do, the numbers and the counters keep the values the exit routine reads. */
  lemma FlagDownMeansFinal(c: Config, sched: seq<nat>, later: seq<nat>)
    requires Accepted(c) && Schedule(c, sched) && Schedule(c, later)
    requires Run(c, Init(c), sched).beginFlag != RUNNING
    ensures var s := Run(c, Init(c), sched);
      && AllPastCompute(s) && s.barrierState == 2
      && Run(c, s, later).numbers == s.numbers
      && Run(c, s, later).counters == s.counters
  {
    var s := Run(c, Init(c), sched);
    FlagHolds(c, sched);
    BarrierHolds(c, sched);
    forall t | 0 <= t < c.threads ensures PastCompute(s.pcs[t]) {
      assert InPhase(s.pcs[t], s.history.phase);
    }
    BarrierStateRange(c, s);
    TwoRounds(c, s);
    PastComputeFreezes(c, s, later);
  }

  lemma TwoRounds(c: Config, s: State)
    requires BarrierInv(c, s) && 3 <= s.history.phase
    ensures s.barrierState == 2
  {
    assert InPhase(s.pcs[0], s.history.phase);
    forall t | 0 <= t < c.threads ensures Announced()(s.pcs[t]) == 0 {
      assert InPhase(s.pcs[t], s.history.phase);
    }
    SumZero(s.pcs, Announced());
  }

  lemma FlagOnlyFalls(c: Config, s: State, t: nat)
    requires WellFormed(c, s) && t < c.threads && FlagInv(s)
    ensures s.beginFlag == 0 ==> Step(c, s, t).beginFlag == 0
    ensures !s.pcs[t].Done? && Step(c, s, t).pcs[t].Done? ==> Step(c, s, t).beginFlag == 0
    // a thread that reads the flag goes on to write it exactly if it is still up
    ensures s.pcs[t].ReadFlag? ==> (Step(c, s, t).pcs[t].Done? <==> s.beginFlag == 0)
  {}

  /** A thread that has returned leaves the flag down behind it. */
  ghost predicate DoneInv(s: State) {
    forall t :: 0 <= t < |s.pcs| && s.pcs[t].Done? ==> s.beginFlag == 0
  }

  lemma DoneStep(c: Config, s: State, t: nat)
    requires WellFormed(c, s) && t < c.threads && FlagInv(s) && DoneInv(s)
    ensures DoneInv(Step(c, s, t))
  {
    var s' := Step(c, s, t);
    FlagOnlyFalls(c, s, t);
    forall u | 0 <= u < |s'.pcs| && s'.pcs[u].Done? ensures s'.beginFlag == 0 {
      assert u != t ==> s.pcs[u].Done?;
    }
  }

  /** A finished run has taken the flag down. */
  lemma {:induction false} DoneTakesFlagDown(c: Config, sched: seq<nat>)
    requires Accepted(c) && Schedule(c, sched)
    ensures DoneInv(Run(c, Init(c), sched))
  {
    if sched != [] {
      DoneTakesFlagDown(c, sched[..|sched|-1]);
      FlagHolds(c, sched[..|sched|-1]);
      DoneStep(c, Run(c, Init(c), sched[..|sched|-1]), sched[|sched|-1]);
    }
  }
}
