/** The reusable two-counter spin barrier: what holds in every reachable state. */
module SieveBarrier {
  import opened Sums
  import opened SieveMachine

  // ----- tallies over the threads -----

  function Entered(r: int): Pc -> int { pc => if Entries(pc) > r then 1 else 0 }
  function Exited(r: int): Pc -> int { pc => if Exits(pc) > r then 1 else 0 }
  function Closing(): Pc -> int { (pc: Pc) => if pc.Barrier? && (pc.stage == Announce || pc.stage == Reopen) then 1 else 0 }
  function Clearing(): Pc -> int { (pc: Pc) => if pc.Barrier? && pc.stage == Clear then 1 else 0 }
  function Announced(): Pc -> int { (pc: Pc) => if pc.Barrier? && pc.stage == Reopen then 1 else 0 }

  /** The guard resets a thread standing at pc can have behind it.  Phase 2r gathers the threads
      for round r; phase 2r+1 lets them go. */
  predicate InPhase(pc: Pc, p: nat) {
    match pc
    case Barrier(r, st) =>
      && r <= 1
      && match st {
           case SpinEnd => p == 2 * r || p + 1 == 2 * r
           case Enter => p == 2 * r
           case Announce => p == 2 * r
           case Reopen => p == 2 * r
           case SpinStart => p == 2 * r || p == 2 * r + 1
           case Leave => p == 2 * r + 1
           case Clear => p == 2 * r + 1
         }
    case ReadFlag => p == 3 || p == 4
    case ClearFlag => p == 3 || p == 4
    case Done => p == 3 || p == 4
    case _ => p == 1 || p == 2
  }

  /** Rounds whose start guard has been reset, and rounds whose end guard has been reset. */
  function Opened(p: nat): nat { (p + 1) / 2 }
  function Closed(p: nat): nat { p / 2 }

  ghost predicate BarrierInv(c: Config, s: State) {
    var p := s.history.phase;
    && WellFormed(c, s)
    && (forall t :: 0 <= t < c.threads ==> InPhase(s.pcs[t], p))
    && s.startGuard == c.threads - Sum(s.pcs, Entered(Opened(p)))
    && s.endGuard == Sum(s.pcs, Exited(Closed(p)))
    && Sum(s.pcs, Closing()) == (if s.startGuard == 0 then 1 else 0)
    && Sum(s.pcs, Clearing()) == (if s.endGuard == c.threads then 1 else 0)
    && s.barrierState == Opened(p) + Sum(s.pcs, Announced())
  }

  lemma InitBarrier(c: Config)
    requires Accepted(c)
    ensures BarrierInv(c, Init(c))
  {
    var pcs := Init(c).pcs;
    SumZero(pcs, Entered(0));
    SumZero(pcs, Exited(0));
    SumZero(pcs, Closing());
    SumZero(pcs, Clearing());
    SumZero(pcs, Announced());
  }

  /** What moving thread t to pc does to every tally. */
  lemma TalliesMove(pcs: seq<Pc>, t: nat, pc: Pc, p: nat)
    requires t < |pcs|
    ensures var q := pcs[t := pc];
      && Sum(q, Entered(Opened(p))) == Sum(pcs, Entered(Opened(p))) - Entered(Opened(p))(pcs[t]) + Entered(Opened(p))(pc)
      && Sum(q, Exited(Closed(p))) == Sum(pcs, Exited(Closed(p))) - Exited(Closed(p))(pcs[t]) + Exited(Closed(p))(pc)
      && Sum(q, Closing()) == Sum(pcs, Closing()) - Closing()(pcs[t]) + Closing()(pc)
      && Sum(q, Clearing()) == Sum(pcs, Clearing()) - Clearing()(pcs[t]) + Clearing()(pc)
      && Sum(q, Announced()) == Sum(pcs, Announced()) - Announced()(pcs[t]) + Announced()(pc)
  {
    SumUpdate(pcs, t, pc, Entered(Opened(p)));
    SumUpdate(pcs, t, pc, Exited(Closed(p)));
    SumUpdate(pcs, t, pc, Closing());
    SumUpdate(pcs, t, pc, Clearing());
    SumUpdate(pcs, t, pc, Announced());
  }

  /** With a tally of at most one, the thread that makes it up is alone. */
  lemma Alone(pcs: seq<Pc>, t: nat, f: Pc -> int)
    requires t < |pcs| && f(pcs[t]) == 1 && Sum(pcs, f) <= 1 && f(Done) == 0
    requires forall u :: 0 <= u < |pcs| ==> f(pcs[u]) == 0 || f(pcs[u]) == 1
    ensures Sum(pcs, f) == 1
    ensures forall u :: 0 <= u < |pcs| && u != t ==> f(pcs[u]) == 0
  {
    SumUpdate(pcs, t, Done, f);
    var q := pcs[t := Done];
    SumOfBits(q, f);
    forall u | 0 <= u < |pcs| && u != t ensures f(pcs[u]) == 0 {
      assert f(q[u]) == 0;
    }
  }

  lemma EveryoneEntered(pcs: seq<Pc>, r: nat)
    requires Sum(pcs, Entered(r)) == |pcs|
    ensures forall u :: 0 <= u < |pcs| ==> Entries(pcs[u]) > r
  {
    SumOfBits(pcs, Entered(r));
    forall u | 0 <= u < |pcs| ensures Entries(pcs[u]) > r {
      assert Entered(r)(pcs[u]) == 1;
    }
  }

  lemma EveryoneLeft(pcs: seq<Pc>, r: nat)
    requires Sum(pcs, Exited(r)) == |pcs|
    ensures forall u :: 0 <= u < |pcs| ==> Exits(pcs[u]) > r
  {
    SumOfBits(pcs, Exited(r));
    forall u | 0 <= u < |pcs| ensures Exits(pcs[u]) > r {
      assert Exited(r)(pcs[u]) == 1;
    }
  }

  lemma PhaseLimits(pc: Pc, p: nat)
    requires InPhase(pc, p)
    ensures Closed(p) <= Exits(pc) <= Closed(p) + 1 && Opened(p) <= Entries(pc) <= Opened(p) + 1
  {}

  /** Once a thread has closed the gathering, every thread is inside the round. */
  lemma GatheringFull(c: Config, s: State, t: nat)
    requires BarrierInv(c, s) && t < c.threads && Closing()(s.pcs[t]) == 1
    ensures s.startGuard == 0
    ensures forall u :: 0 <= u < c.threads ==> Entries(s.pcs[u]) == s.pcs[t].round + 1
    ensures forall u :: 0 <= u < c.threads && u != t ==> Closing()(s.pcs[u]) == 0
  {
    var p, r := s.history.phase, s.pcs[t].round;
    assert InPhase(s.pcs[t], p);
    assert p == 2 * r;
    Alone(s.pcs, t, Closing());
    EveryoneEntered(s.pcs, r);
    forall u | 0 <= u < c.threads ensures Entries(s.pcs[u]) == r + 1 {
      PhaseLimits(s.pcs[u], p);
    }
  }

  /** Once a thread has emptied the barrier, every thread has left the round. */
  lemma RoundLeft(c: Config, s: State, t: nat)
    requires BarrierInv(c, s) && t < c.threads && Clearing()(s.pcs[t]) == 1
    ensures s.endGuard == c.threads
    ensures forall u :: 0 <= u < c.threads ==> Exits(s.pcs[u]) == s.pcs[t].round + 1
    ensures forall u :: 0 <= u < c.threads && u != t ==> Clearing()(s.pcs[u]) == 0
  {
    var p, r := s.history.phase, s.pcs[t].round;
    assert InPhase(s.pcs[t], p);
    assert p == 2 * r + 1;
    Alone(s.pcs, t, Clearing());
    EveryoneLeft(s.pcs, r);
    forall u | 0 <= u < c.threads ensures Exits(s.pcs[u]) == r + 1 {
      PhaseLimits(s.pcs[u], p);
    }
  }

  /** A thread inside the round, and past the closing of the gathering, may be let go. */
  lemma ReleasedPhase(pc: Pc, r: nat)
    requires InPhase(pc, 2 * r) && Entries(pc) == r + 1 && Closing()(pc) == 0
    ensures InPhase(pc, 2 * r + 1)
  {}

  /** A thread that has left the round, and is past clearing it, may gather for the next. */
  lemma GatheringPhase(pc: Pc, r: nat)
    requires InPhase(pc, 2 * r + 1) && Exits(pc) == r + 1 && Clearing()(pc) == 0
    ensures InPhase(pc, 2 * r + 2)
  {}

  /** The start guard is reset: the next phase lets everybody go. */
  lemma ReopenStep(c: Config, s: State, t: nat)
    requires BarrierInv(c, s) && t < c.threads
    requires s.pcs[t].Barrier? && s.pcs[t].stage == Reopen
    ensures BarrierInv(c, Step(c, s, t))
  {
    hide Sum;
    var r := s.pcs[t].round;
    var s' := Goto(Tick(s).(startGuard := c.threads), t, Barrier(r, Leave));
    assert s' == Step(c, s, t);
    GatheringFull(c, s, t);
    assert InPhase(s.pcs[t], s.history.phase);
    TalliesMove(s.pcs, t, Barrier(r, Leave), 2 * r);
    forall u | 0 <= u < c.threads ensures InPhase(s'.pcs[u], 2 * r + 1) && Entered(r + 1)(s'.pcs[u]) == 0 {
      if u != t { ReleasedPhase(s.pcs[u], r); }
    }
    SumZero(s'.pcs, Entered(r + 1));
  }

  /** The end guard is reset: the next phase gathers everybody again. */
  lemma ClearStep(c: Config, s: State, t: nat)
    requires BarrierInv(c, s) && t < c.threads
    requires s.pcs[t].Barrier? && s.pcs[t].stage == Clear
    ensures BarrierInv(c, Step(c, s, t))
  {
    var r := s.pcs[t].round;
    var s' := Goto(Tick(s).(endGuard := 0), t, AfterBarrier(r));
    assert s' == Step(c, s, t);
    RoundLeft(c, s, t);
    assert InPhase(s.pcs[t], s.history.phase);
    TalliesMove(s.pcs, t, AfterBarrier(r), 2 * r + 1);
    forall u | 0 <= u < c.threads ensures InPhase(s'.pcs[u], 2 * r + 2) && Exited(r + 1)(s'.pcs[u]) == 0 {
      if u != t { GatheringPhase(s.pcs[u], r); }
    }
    SumZero(s'.pcs, Exited(r + 1));
  }

  /** A thread at the entry of round r sees every thread out of the earlier round. */
  lemma EntryIsOpen(c: Config, s: State, t: nat)
    requires BarrierInv(c, s) && t < c.threads
    requires s.pcs[t].Barrier? && s.pcs[t].stage == SpinEnd && s.endGuard == 0
    ensures s.history.phase == 2 * s.pcs[t].round
  {
    SumOfBits(s.pcs, Exited(Closed(s.history.phase)));
    assert Exited(Closed(s.history.phase))(s.pcs[t]) == 0;
  }

  /** A thread released from its spin finds the start guard of its own round reset. */
  lemma SpinIsOver(c: Config, s: State, t: nat)
    requires BarrierInv(c, s) && t < c.threads
    requires s.pcs[t].Barrier? && s.pcs[t].stage == SpinStart
    ensures s.startGuard == c.threads <==> s.history.phase == 2 * s.pcs[t].round + 1
  {
    var p, r := s.history.phase, s.pcs[t].round;
    SumOfBits(s.pcs, Entered(Opened(p)));
    if p == 2 * r {
      assert Entered(r)(s.pcs[t]) == 1;
    } else {
      SumZero(s.pcs, Entered(r + 1));
    }
  }

  /** A move within a phase whose effect on the guards agrees with its effect on the tallies. */
  lemma GuardMove(c: Config, s: State, s': State, t: nat)
    requires BarrierInv(c, s) && WellFormed(c, s') && t < c.threads
    requires s'.pcs == s.pcs[t := s'.pcs[t]] && InPhase(s'.pcs[t], s.history.phase)
    requires s'.history.phase == s.history.phase
    requires var p, a, b := s.history.phase, s.pcs[t], s'.pcs[t];
      && s'.startGuard == s.startGuard + Entered(Opened(p))(a) - Entered(Opened(p))(b)
      && s'.endGuard == s.endGuard - Exited(Closed(p))(a) + Exited(Closed(p))(b)
      && Closing()(b) - Closing()(a) == (if s'.startGuard == 0 then 1 else 0) - (if s.startGuard == 0 then 1 else 0)
      && Clearing()(b) - Clearing()(a) ==
           (if s'.endGuard == c.threads then 1 else 0) - (if s.endGuard == c.threads then 1 else 0)
      && s'.barrierState - s.barrierState == Announced()(b) - Announced()(a)
    ensures BarrierInv(c, s')
  {
    TalliesMove(s.pcs, t, s'.pcs[t], s.history.phase);
  }

  lemma SumBelow<T>(s: seq<T>, t: nat, f: T -> int)
    requires t < |s| && f(s[t]) == 0 && forall i :: 0 <= i < |s| ==> f(s[i]) == 0 || f(s[i]) == 1
    ensures Sum(s, f) < |s|
  {
    SumOfBits(s, f);
  }

  lemma EnterStep(c: Config, s: State, t: nat)
    requires BarrierInv(c, s) && t < c.threads
    requires s.pcs[t].Barrier? && s.pcs[t].stage == Enter
    ensures BarrierInv(c, Step(c, s, t))
  {
    assert InPhase(s.pcs[t], s.history.phase);
    SumBelow(s.pcs, t, Entered(Opened(s.history.phase)));
    GuardMove(c, s, BarrierStep(c, s, t), t);
  }

  lemma LeaveStep(c: Config, s: State, t: nat)
    requires BarrierInv(c, s) && t < c.threads
    requires s.pcs[t].Barrier? && s.pcs[t].stage == Leave
    ensures BarrierInv(c, Step(c, s, t))
  {
    assert InPhase(s.pcs[t], s.history.phase);
    SumBelow(s.pcs, t, Exited(Closed(s.history.phase)));
    GuardMove(c, s, BarrierStep(c, s, t), t);
  }

  lemma PlainStep(c: Config, s: State, t: nat)
    requires BarrierInv(c, s) && t < c.threads
    requires s.pcs[t].Barrier? ==> s.pcs[t].stage in {SpinEnd, SpinStart, Announce}
    ensures BarrierInv(c, Step(c, s, t))
  {
    hide Sum, Crossing, Target;
    var s' := Step(c, s, t);
    assert InPhase(s.pcs[t], s.history.phase);
    if s' != s {
      if s.pcs[t].Barrier? && s.pcs[t].stage == SpinEnd {
        EntryIsOpen(c, s, t);
      } else if s.pcs[t].Barrier? && s.pcs[t].stage == SpinStart {
        SpinIsOver(c, s, t);
      }
      GuardMove(c, s, s', t);
    }
  }

  lemma BarrierStepKeeps(c: Config, s: State, t: nat)
    requires BarrierInv(c, s) && t < c.threads
    ensures BarrierInv(c, Step(c, s, t))
  {
    if s.pcs[t].Barrier? && s.pcs[t].stage == Reopen {
      ReopenStep(c, s, t);
    } else if s.pcs[t].Barrier? && s.pcs[t].stage == Clear {
      ClearStep(c, s, t);
    } else if s.pcs[t].Barrier? && s.pcs[t].stage == Enter {
      EnterStep(c, s, t);
    } else if s.pcs[t].Barrier? && s.pcs[t].stage == Leave {
      LeaveStep(c, s, t);
    } else {
      PlainStep(c, s, t);
    }
  }

  lemma {:induction false} BarrierHolds(c: Config, sched: seq<nat>)
    requires Accepted(c) && Schedule(c, sched)
    ensures BarrierInv(c, Run(c, Init(c), sched))
  {
    if sched == [] {
      InitBarrier(c);
    } else {
      BarrierHolds(c, sched[..|sched|-1]);
      BarrierStepKeeps(c, Run(c, Init(c), sched[..|sched|-1]), sched[|sched|-1]);
    }
  }

  // ----- what the barrier promises -----

  /** No thread returns from its r-th call before every thread has entered its own. */
  lemma NobodyReturnsEarly(c: Config, sched: seq<nat>, t: nat, u: nat)
    requires Accepted(c) && Schedule(c, sched) && t < c.threads && u < c.threads
    ensures var s := Run(c, Init(c), sched); Returns(s.pcs[t]) <= Entries(s.pcs[u])
  {
    BarrierHolds(c, sched);
  }

  /** No thread decrements the start guard of a round before every thread has left the
      spin of the round before: all of them have incremented the end guard that often. */
  lemma NobodyEntersEarly(c: Config, sched: seq<nat>, t: nat, u: nat)
    requires Accepted(c) && Schedule(c, sched) && t < c.threads && u < c.threads
    ensures var s := Run(c, Init(c), sched);
      s.pcs[t].Barrier? && s.pcs[t].stage == Enter ==> s.pcs[t].round <= Exits(s.pcs[u])
  {
    BarrierHolds(c, sched);
  }

  lemma OnlyAnnounceCounts(c: Config, s: State, t: nat)
    requires WellFormed(c, s) && t < c.threads
    ensures Step(c, s, t).barrierState ==
      s.barrierState + if s.pcs[t].Barrier? && s.pcs[t].stage == Announce then 1 else 0
  {}

  /** barrier_state counts the completed gatherings: it never falls, it rises by one only when
      the last of all threads has come in, and it never exceeds the two rounds of a run. */
  lemma BarrierStateOnce(c: Config, sched: seq<nat>, t: nat)
    requires Accepted(c) && Schedule(c, sched) && t < c.threads
    ensures var s := Run(c, Init(c), sched);
      var s' := Step(c, s, t);
      && 0 <= s.barrierState <= s'.barrierState <= 2
      && (s'.barrierState != s.barrierState ==>
            && s'.barrierState == s.barrierState + 1
            && forall u :: 0 <= u < c.threads ==> Entries(s.pcs[u]) == s'.barrierState)
  {
    var s := Run(c, Init(c), sched);
    BarrierHolds(c, sched);
    BarrierStateStep(c, s, t);
  }

  lemma BarrierStateStep(c: Config, s: State, t: nat)
    requires BarrierInv(c, s) && t < c.threads
    ensures var s' := Step(c, s, t);
      && 0 <= s.barrierState <= s'.barrierState <= 2
      && (s'.barrierState != s.barrierState ==>
            && s'.barrierState == s.barrierState + 1
            && forall u :: 0 <= u < c.threads ==> Entries(s.pcs[u]) == s'.barrierState)
  {
    BarrierStateRange(c, s);
    OnlyAnnounceCounts(c, s, t);
    if s.pcs[t].Barrier? && s.pcs[t].stage == Announce {
      GatheringFull(c, s, t);
      NotYetAnnounced(c, s, t);
      assert InPhase(s.pcs[t], s.history.phase);
    }
  }

  /** The thread about to announce is the only one closing the gathering. */
  lemma NotYetAnnounced(c: Config, s: State, t: nat)
    requires BarrierInv(c, s) && t < c.threads && s.pcs[t].Barrier? && s.pcs[t].stage == Announce
    ensures s.barrierState == s.pcs[t].round
  {
    GatheringFull(c, s, t);
    forall u | 0 <= u < c.threads ensures Announced()(s.pcs[u]) == 0 {
      assert u != t ==> Closing()(s.pcs[u]) == 0;
    }
    SumZero(s.pcs, Announced());
  }

  lemma BarrierStateRange(c: Config, s: State)
    requires BarrierInv(c, s)
    ensures 0 <= s.barrierState <= 2
  {
    var p := s.history.phase;
    assert InPhase(s.pcs[0], p);
    if t :| 0 <= t < c.threads && Announced()(s.pcs[t]) == 1 {
      assert InPhase(s.pcs[t], p);
      GatheringFull(c, s, t);
      forall u | 0 <= u < c.threads && u != t ensures Announced()(s.pcs[u]) == 0 {
        assert Closing()(s.pcs[u]) == 0;
      }
      var q := s.pcs[t := Done];
      SumUpdate(s.pcs, t, Done, Announced());
      SumZero(q, Announced());
    } else {
      SumZero(s.pcs, Announced());
    }
  }
}
