/** Deadlock freedom and termination of a whole run, under every schedule. */
module SieveProgress {
  import opened Sums
  import opened SieveMachine
  import opened SieveBarrier
  import Memory = SieveMemory

  ghost predicate Inv(c: Config, s: State) {
    BarrierInv(c, s) && Memory.IndexInv(c, s)
  }

  lemma Reachable(c: Config, sched: seq<nat>)
    requires Accepted(c) && Schedule(c, sched)
    ensures BarrierInv(c, Run(c, Init(c), sched)) && Memory.MemoryInv(c, Run(c, Init(c), sched))
  {
    BarrierHolds(c, sched);
    Memory.MemoryHolds(c, sched);
  }

  // ----- the shared index never runs away -----

  lemma {:induction false} ThreadsBelow(u: set<nat>, n: nat)
    requires forall t :: t in u ==> t < n
    ensures |u| <= n
  {
    if n == 0 {
      assert u == {};
    } else {
      ThreadsBelow(u - {n - 1}, n - 1);
    }
  }

  /** Above the bound, the index counts exactly the threads that came too late; a thread about
      to take such an index has not taken one before. */
  lemma OvershootExact(c: Config, sched: seq<nat>)
    requires Accepted(c) && Schedule(c, sched)
    ensures var s := Run(c, Init(c), sched);
      && (s.globalIndex > c.bound ==> s.globalIndex == c.bound + 1 + |s.history.late|)
      && s.globalIndex <= c.bound + 1 + c.threads
      && (forall t :: 0 <= t < c.threads && s.pcs[t].Take? ==> t !in s.history.late)
  {
    Reachable(c, sched);
    var s := Run(c, Init(c), sched);
    ThreadsBelow(s.history.late, c.threads);
  }

  /** Where the thread that took the last index within the bound can stand. */
  predicate LastPc(c: Config, pc: Pc) {
    match pc
    case Unlock(o) => o == c.bound
    case Cross(o, _) => o == c.bound
    case Count(o, _) => o == c.bound
    case Recheck => true
    case _ => PastCompute(pc)
  }

  ghost predicate LastInv(c: Config, s: State) {
    c.bound in s.history.owner ==>
      var t := s.history.owner[c.bound];
      t < |s.pcs| && s.globalIndex > c.bound && LastPc(c, s.pcs[t]) && t !in s.history.late
  }

  lemma LastThreadStep(c: Config, s: State, t: nat)
    requires WellFormed(c, s) && t < c.threads && LastPc(c, s.pcs[t]) && s.globalIndex > c.bound
    ensures var s' := Step(c, s, t);
      && LastPc(c, s'.pcs[t]) && s'.globalIndex == s.globalIndex
      && s'.history.late == s.history.late && s'.history.owner == s.history.owner
  {
    hide Crossing, Target, FirstCursor, NextCursor;
    if s.pcs[t].Barrier? {
      Memory.GuardFrame(c, s, t);
    }
  }

  /** What a step does to the index, and to who has taken which. */
  lemma TakingStep(c: Config, s: State, t: nat)
    requires WellFormed(c, s) && t < c.threads
    ensures var s', x := Step(c, s, t), s.globalIndex;
      && s'.globalIndex >= x
      && (!s.pcs[t].Take? ==> s'.history.owner == s.history.owner && s'.history.late == s.history.late)
      && (s.pcs[t].Take? ==>
            && s'.pcs[t] == Unlock(x) && s'.globalIndex == x + 1
            && s'.history.owner == (if x <= c.bound then s.history.owner[x := t] else s.history.owner)
            && s'.history.late == (if x <= c.bound then s.history.late else s.history.late + {t}))
  {
    hide Crossing, Target, FirstCursor, NextCursor;
    if s.pcs[t].Barrier? {
      Memory.GuardFrame(c, s, t);
    }
  }

  lemma LastStep(c: Config, s: State, t: nat)
    requires WellFormed(c, s) && LastInv(c, s) && t < c.threads
    requires s.pcs[t].Take? ==> t !in s.history.late
    requires c.bound in s.history.owner ==> s.history.owner[c.bound] < c.threads
    ensures LastInv(c, Step(c, s, t))
  {
    TakingStep(c, s, t);
    if c.bound in s.history.owner && s.history.owner[c.bound] == t {
      LastThreadStep(c, s, t);
    }
    hide Step;
  }

  lemma {:induction false} LastHolds(c: Config, sched: seq<nat>)
    requires Accepted(c) && Schedule(c, sched)
    ensures LastInv(c, Run(c, Init(c), sched))
  {
    if sched != [] {
      hide LastInv, Memory.MemoryInv, BarrierInv;
      var a, t := sched[..|sched|-1], sched[|sched|-1];
      LastHolds(c, a);
      OvershootExact(c, a);
      OwnersExist(c, a);
      LastStep(c, Run(c, Init(c), a), t);
    }
  }

  lemma OwnersExist(c: Config, sched: seq<nat>)
    requires Accepted(c) && Schedule(c, sched)
    ensures forall o :: o in Run(c, Init(c), sched).history.owner ==> Run(c, Init(c), sched).history.owner[o] < c.threads
  {
    Reachable(c, sched);
  }

  /** The thread that takes the last index within the bound takes no further one.  In the Sundaram
      module there always is such a thread, so the index stays one lower than in general. */
  lemma LastTakerStops(c: Config, sched: seq<nat>)
    requires Accepted(c) && Schedule(c, sched)
    ensures var s := Run(c, Init(c), sched);
      && (c.bound in s.history.owner ==> s.history.owner[c.bound] !in s.history.late)
      && (c.algorithm == Sundaram ==> |s.history.late| < c.threads && s.globalIndex <= c.bound + c.threads)
  {
    var s := Run(c, Init(c), sched);
    LastHolds(c, sched);
    Reachable(c, sched);
    OvershootExact(c, sched);
    if c.algorithm == Sundaram && s.globalIndex > c.bound {
      assert c.bound in s.history.owner;
      LateLacksOne(s.history.late, s.history.owner[c.bound], c.threads);
    }
  }

  lemma LateLacksOne(late: set<nat>, t: nat, n: nat)
    requires t < n && t !in late && forall u :: u in late ==> u < n
    ensures |late| < n
  {
    ThreadsBelow(late + {t}, n);
    assert |late + {t}| == |late| + 1;
  }

  // ----- the measure -----

  /** How far a stage is from the end of its barrier. */
  function StageFuel(st: Stage): nat {
    match st
    case SpinEnd => 8
    case Enter => 7
    case Announce => 6
    case Reopen => 5
    case SpinStart => 5
    case Leave => 4
    case Clear => 3
  }

  function PcFuel(c: Config, pc: Pc): nat {
    match pc
    case Barrier(r, st) => StageFuel(st) + if r == 0 then 9 else 0
    case Lock => 11
    case Scan => 10
    case Skip => 9
    case Take => 9
    case Unlock(o) => 14 + 2 * Slack(c, FirstCursor(c, o))
    case Cross(_, k) => 13 + 2 * Slack(c, k)
    case Count(_, k) => 12 + 2 * Slack(c, k)
    case Recheck => 12
    case ReadFlag => 2
    case ClearFlag => 1
    case Done => 0
  }

  function Fuel(c: Config): Pc -> int { pc => PcFuel(c, pc) }

  /** What one increment of the shared index is worth. */
  function IndexFuel(c: Config): nat { 2 * c.bound + 8 }

  /** A number that every step changing the state brings down. */
  function Measure(c: Config, s: State): int {
    IndexFuel(c) * (c.bound + 1 + c.threads - s.globalIndex) + Sum(s.pcs, Fuel(c))
  }

  lemma Product(a: int, b: int)
    requires 0 <= a && 0 <= b
    ensures 0 <= a * b
  {}

  lemma IndexBounded(c: Config, s: State)
    requires Memory.IndexInv(c, s)
    ensures s.globalIndex <= c.bound + 1 + c.threads
  {
    ThreadsBelow(s.history.late, c.threads);
  }

  lemma MeasureIsNatural(c: Config, s: State)
    requires s.globalIndex <= c.bound + 1 + c.threads
    ensures 0 <= Measure(c, s)
  {
    SumNonNegative(s.pcs, Fuel(c));
    Product(IndexFuel(c), c.bound + 1 + c.threads - s.globalIndex);
  }

  /** A move within the same index value burns the thread's own fuel. */
  lemma LocalMove(c: Config, s: State, s': State, t: nat)
    requires t < |s.pcs| == |s'.pcs| && s'.pcs == s.pcs[t := s'.pcs[t]]
    requires s'.globalIndex == s.globalIndex
    requires PcFuel(c, s'.pcs[t]) < PcFuel(c, s.pcs[t])
    ensures Measure(c, s') < Measure(c, s)
  {
    SumUpdate(s.pcs, t, s'.pcs[t], Fuel(c));
  }

  /** An increment of the shared index pays for the fuel its taker gains. */
  lemma IndexMove(c: Config, s: State, s': State, t: nat)
    requires t < |s.pcs| == |s'.pcs| && s'.pcs == s.pcs[t := s'.pcs[t]]
    requires s'.globalIndex == s.globalIndex + 1
    requires PcFuel(c, s'.pcs[t]) < PcFuel(c, s.pcs[t]) + IndexFuel(c)
    ensures Measure(c, s') < Measure(c, s)
  {
    SumUpdate(s.pcs, t, s'.pcs[t], Fuel(c));
    var g := c.bound + 1 + c.threads - s.globalIndex;
    assert IndexFuel(c) * (g - 1) == IndexFuel(c) * g - IndexFuel(c);
  }

  lemma StepBurnsFuel(c: Config, s: State, t: nat)
    requires WellFormed(c, s) && t < c.threads && Step(c, s, t) != s
    requires s.pcs[t].Count? ==> 1 <= s.pcs[t].own && Crossing(c, s.pcs[t].own, s.pcs[t].cursor)
    ensures Measure(c, Step(c, s, t)) < Measure(c, s)
  {
    var s' := Step(c, s, t);
    match s.pcs[t] {
      case Take => IndexMove(c, s, s', t);
      case Skip => IndexMove(c, s, s', t);
      case Count(o, k) => CrossingProgress(c, o, k); LocalMove(c, s, s', t);
      case _ => LocalMove(c, s, s', t);
    }
  }

  /** Every step either spins, leaving the state alone, or brings the measure down, which is a
      natural number. */
  lemma SpinOrBurn(c: Config, s: State, t: nat)
    requires Inv(c, s) && t < c.threads
    ensures Step(c, s, t) == s || Measure(c, Step(c, s, t)) < Measure(c, s)
    ensures 0 <= Measure(c, s)
  {
    IndexBounded(c, s);
    MeasureIsNatural(c, s);
    assert Memory.ThreadInv(c, s, t);
    if Step(c, s, t) != s {
      StepBurnsFuel(c, s, t);
    }
  }

  // ----- somebody can always go on -----

  predicate Waiting(pc: Pc) {
    pc.Lock? || pc.Done? || (pc.Barrier? && (pc.stage == SpinEnd || pc.stage == SpinStart))
  }

  lemma WorkingThreadMoves(c: Config, s: State, t: nat)
    requires WellFormed(c, s) && t < c.threads && !Waiting(s.pcs[t])
    ensures Step(c, s, t) != s
  {
    assert Step(c, s, t).pcs[t] != s.pcs[t];
  }

  /** With every thread waiting for round r to gather, the entry is open or a closer is missing. */
  lemma GatheringMoves(c: Config, s: State) returns (t: nat)
    requires BarrierInv(c, s) && !AllDone(s) && s.history.phase % 2 == 0
    requires forall u :: 0 <= u < c.threads ==> Waiting(s.pcs[u]) && !s.pcs[u].Lock?
    ensures t < c.threads && Step(c, s, t) != s
  {
    var p := s.history.phase;
    if u :| 0 <= u < c.threads && s.pcs[u].Barrier? && s.pcs[u].stage == SpinEnd {
      t := u;
      forall v | 0 <= v < c.threads ensures Exited(Closed(p))(s.pcs[v]) == 0 {
        assert InPhase(s.pcs[v], p);
      }
      assert InPhase(s.pcs[u], p);
      SumZero(s.pcs, Exited(Closed(p)));
      assert Step(c, s, t).pcs[t] != s.pcs[t];
    } else {
      t := 0;
      forall u | 0 <= u < c.threads ensures Entered(Opened(p))(s.pcs[u]) == 1 {
        assert InPhase(s.pcs[u], p) && Waiting(s.pcs[u]);
      }
      SumOfBits(s.pcs, Entered(Opened(p)));
      SumZero(s.pcs, Closing());
      assert false;
    }
  }

  /** With every thread waiting to be let go, a released thread moves or a clearer is missing. */
  lemma ReleasingMoves(c: Config, s: State) returns (t: nat)
    requires BarrierInv(c, s) && !AllDone(s) && s.history.phase % 2 == 1
    requires forall u :: 0 <= u < c.threads ==> Waiting(s.pcs[u]) && !s.pcs[u].Lock?
    ensures t < c.threads && Step(c, s, t) != s
  {
    var p := s.history.phase;
    if u :| 0 <= u < c.threads && s.pcs[u].Barrier? && s.pcs[u].stage == SpinStart {
      t := u;
      assert InPhase(s.pcs[u], p);
      SpinIsOver(c, s, t);
      assert Step(c, s, t).pcs[t] != s.pcs[t];
    } else {
      t := 0;
      forall u | 0 <= u < c.threads ensures Exited(Closed(p))(s.pcs[u]) == 1 {
        assert InPhase(s.pcs[u], p) && Waiting(s.pcs[u]);
      }
      SumOfBits(s.pcs, Exited(Closed(p)));
      SumZero(s.pcs, Clearing());
      assert false;
    }
  }

  lemma HolderIsCritical(c: Config, s: State)
    requires Memory.IndexInv(c, s)
    ensures s.holder != NOBODY ==> 0 <= s.holder < c.threads && Critical(s.pcs[s.holder])
  {
    if s.holder != NOBODY {
      assert Memory.ThreadInv(c, s, s.holder);
    }
  }

  /** No deadlock: while a thread is unfinished, some thread has a step that changes the state. */
  lemma SomebodyMoves(c: Config, s: State) returns (t: nat)
    requires Inv(c, s) && !AllDone(s)
    ensures t < c.threads && Step(c, s, t) != s
  {
    if u :| 0 <= u < c.threads && !Waiting(s.pcs[u]) {
      t := u;
      WorkingThreadMoves(c, s, t);
    } else if u :| 0 <= u < c.threads && s.pcs[u].Lock? {
      t := u;
      HolderIsCritical(c, s);
      assert Step(c, s, t).pcs[t] != s.pcs[t];
    } else {
      if s.history.phase % 2 == 0 { t := GatheringMoves(c, s); } else { t := ReleasingMoves(c, s); }
    }
  }

  // ----- termination -----

  lemma StepKeeps(c: Config, s: State, t: nat)
    requires BarrierInv(c, s) && Memory.MemoryInv(c, s) && t < c.threads
    ensures BarrierInv(c, Step(c, s, t)) && Memory.MemoryInv(c, Step(c, s, t))
  {
    BarrierStepKeeps(c, s, t);
    Memory.MemoryStepKeeps(c, s, t);
  }

  lemma {:induction false} RunKeeps(c: Config, s: State, sched: seq<nat>)
    requires BarrierInv(c, s) && Memory.MemoryInv(c, s) && Schedule(c, sched)
    ensures BarrierInv(c, Run(c, s, sched)) && Memory.MemoryInv(c, Run(c, s, sched))
  {
    if sched != [] {
      RunKeeps(c, s, sched[..|sched|-1]);
      StepKeeps(c, Run(c, s, sched[..|sched|-1]), sched[|sched|-1]);
    }
  }

  /** The steps of a schedule that change the state: everything but spinning and resting. */
  function Effective(c: Config, s: State, sched: seq<nat>): nat
    requires WellFormed(c, s) && Schedule(c, sched)
  {
    if sched == [] then 0
    else
      var before := Run(c, s, sched[..|sched|-1]);
      Effective(c, s, sched[..|sched|-1]) + if Step(c, before, sched[|sched|-1]) == before then 0 else 1
  }

  /** No schedule makes more effective steps than the measure it starts from. */
  lemma {:induction false} EffectiveStepsBounded(c: Config, s: State, sched: seq<nat>)
    requires BarrierInv(c, s) && Memory.MemoryInv(c, s) && Schedule(c, sched)
    ensures 0 <= Measure(c, Run(c, s, sched))
    ensures Effective(c, s, sched) + Measure(c, Run(c, s, sched)) <= Measure(c, s)
  {
    RunKeeps(c, s, sched);
    IndexBounded(c, Run(c, s, sched));
    MeasureIsNatural(c, Run(c, s, sched));
    if sched != [] {
      var a := sched[..|sched|-1];
      RunKeeps(c, s, a);
      EffectiveStepsBounded(c, s, a);
      SpinOrBurn(c, Run(c, s, a), sched[|sched|-1]);
    }
  }

  /** Without effective steps the state stays. */
  lemma {:induction false} IdleRun(c: Config, s: State, sched: seq<nat>)
    requires WellFormed(c, s) && Schedule(c, sched) && Effective(c, s, sched) == 0
    ensures Run(c, s, sched) == s
  {
    if sched != [] {
      IdleRun(c, s, sched[..|sched|-1]);
    }
  }

  lemma {:induction false} EffectiveConcat(c: Config, s: State, a: seq<nat>, b: seq<nat>)
    requires WellFormed(c, s) && Schedule(c, a) && Schedule(c, b)
    ensures Schedule(c, a + b)
    ensures Effective(c, s, a + b) == Effective(c, s, a) + Effective(c, Run(c, s, a), b)
  {
    if b == [] {
      assert a + b == a;
    } else {
      var b' := b[..|b|-1];
      EffectiveConcat(c, s, a, b');
      RunConcat(c, s, a, b');
      assert (a + b)[..|a + b|-1] == a + b';
    }
  }

  /** Every thread gets at least one step. */
  predicate Round(c: Config, r: seq<nat>) {
    Schedule(c, r) && forall t :: 0 <= t < c.threads ==> t in r
  }

  /** A round in which every thread is scheduled makes progress, unless all threads are done. */
  lemma RoundMoves(c: Config, s: State, r: seq<nat>)
    requires Inv(c, s) && Round(c, r) && !AllDone(s)
    ensures 0 < Effective(c, s, r)
  {
    assert WellFormed(c, s);
    hide Step, Effective, Inv, AllDone, WellFormed;
    var t := SomebodyMoves(c, s);
    assert t in r;
    var i :| 0 <= i < |r| && r[i] == t;
    var a, b := r[..i], r[i+1..];
    assert r == (a + [t]) + b;
    EffectiveConcat(c, s, a + [t], b);
    EffectiveConcat(c, s, a, [t]);
    if Effective(c, s, a) == 0 {
      IdleRun(c, s, a);
      EffectiveOne(c, s, t);
    }
  }

  lemma EffectiveOne(c: Config, s: State, t: nat)
    requires WellFormed(c, s) && t < c.threads && Step(c, s, t) != s
    ensures Schedule(c, [t]) && Effective(c, s, [t]) == 1
  {
    hide Step;
    assert [t][..0] == [];
    assert Run(c, s, [t][..0]) == s;
  }

  function Flatten(rounds: seq<seq<nat>>): seq<nat> {
    if rounds == [] then [] else Flatten(rounds[..|rounds|-1]) + rounds[|rounds|-1]
  }

  lemma {:induction false} FairProgress(c: Config, s: State, rounds: seq<seq<nat>>)
    requires BarrierInv(c, s) && Memory.MemoryInv(c, s)
    requires forall i :: 0 <= i < |rounds| ==> Round(c, rounds[i])
    ensures Schedule(c, Flatten(rounds))
    ensures AllDone(Run(c, s, Flatten(rounds))) || |rounds| <= Effective(c, s, Flatten(rounds))
  {
    if rounds != [] {
      var rs, r := rounds[..|rounds|-1], rounds[|rounds|-1];
      FairProgress(c, s, rs);
      var mid := Run(c, s, Flatten(rs));
      RunKeeps(c, s, Flatten(rs));
      RunConcat(c, s, Flatten(rs), r);
      EffectiveConcat(c, s, Flatten(rs), r);
      if AllDone(mid) {
        DoneStays(c, mid, r);
      } else {
        RoundMoves(c, mid, r);
      }
    }
  }

  lemma {:induction false} DoneStays(c: Config, s: State, sched: seq<nat>)
    requires WellFormed(c, s) && Schedule(c, sched) && AllDone(s)
    ensures Run(c, s, sched) == s
  {
    if sched != [] {
      DoneStays(c, s, sched[..|sched|-1]);
    }
  }

  /** Every schedule that keeps giving every thread a turn finishes the module: after more rounds
      than the initial measure, every thread has returned. */
  lemma FairRunsFinish(c: Config, rounds: seq<seq<nat>>)
    requires Accepted(c)
    requires forall i :: 0 <= i < |rounds| ==> Round(c, rounds[i])
    requires |rounds| > Measure(c, Init(c))
    ensures Schedule(c, Flatten(rounds)) && AllDone(Run(c, Init(c), Flatten(rounds)))
  {
    InitBarrier(c);
    Memory.InitMemory(c);
    FairProgress(c, Init(c), rounds);
    EffectiveStepsBounded(c, Init(c), Flatten(rounds));
  }
}
