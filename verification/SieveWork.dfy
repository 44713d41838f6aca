/** How much is crossed out: the counters against the work, the zeroes and the waste. */
module SieveWork {
  import opened Sums
  import opened SieveMachine
  import opened SieveMemory

  /** The iterations the inner loop of `own` has left from `cursor` on. */
  function Todo(c: Config, own: nat, cursor: nat): nat
    requires 1 <= own
    decreases Slack(c, cursor)
  {
    if Crossing(c, own, cursor) then
      CrossingProgress(c, own, cursor);
      1 + Todo(c, own, NextCursor(c, own, cursor))
    else 0
  }

  /** The cross-outs one index costs. */
  function Cost(c: Config, own: nat): nat {
    if own == 0 then 0 else Todo(c, own, FirstCursor(c, own))
  }

  /** The cost of all indices below hi that were taken. */
  function Work(c: Config, taken: set<nat>, hi: nat): nat {
    if hi == 0 then 0 else Work(c, taken, hi - 1) + if hi - 1 in taken then Cost(c, hi - 1) else 0
  }

  lemma {:induction false} WorkFrame(c: Config, a: set<nat>, b: set<nat>, hi: nat)
    requires forall i :: 0 <= i < hi ==> (i in a <==> i in b)
    ensures Work(c, a, hi) == Work(c, b, hi)
  {
    if hi > 0 {
      WorkFrame(c, a, b, hi - 1);
    }
  }

  // ----- tallies -----

  function Value(): int -> int { (x: int) => x }
  function IsZero(): int -> int { (x: int) => if x == 0 then 1 else 0 }
  function AtCount(): Pc -> int { (pc: Pc) => if pc.Count? then 1 else 0 }

  /** The counter increments a thread has before it. */
  function Owed(c: Config): Pc -> int {
    (pc: Pc) =>
      match pc
      case Unlock(o) => Cost(c, o)
      case Cross(o, k) => if o == 0 then 0 else Todo(c, o, k)
      case Count(o, k) => if o == 0 then 0 else Todo(c, o, k)
      case _ => 0
  }

  /** The total of all counters, as the exit routine adds them up. */
  function CountSum(s: State): int { Sum(s.counters, Value()) }

  /** The crossed-out entries from the first index on. */
  function Zeroes(c: Config, s: State): int
    requires WellFormed(c, s)
  {
    Sum(s.numbers[FirstIndex(c)..], IsZero())
  }

  ghost predicate WorkInv(c: Config, s: State) {
    CountSum(s) + Sum(s.pcs, Owed(c)) == Work(c, s.history.owner.Keys, s.globalIndex)
  }

  ghost predicate WasteInv(c: Config, s: State)
    requires WellFormed(c, s)
  {
    CountSum(s) + Sum(s.pcs, AtCount()) == Zeroes(c, s) + s.history.wasted
  }

  lemma InitWork(c: Config)
    requires Accepted(c)
    ensures WorkInv(c, Init(c)) && WasteInv(c, Init(c))
  {
    var s := Init(c);
    SumZero(s.counters, Value());
    SumZero(s.pcs, Owed(c));
    SumZero(s.pcs, AtCount());
    SumZero(s.numbers[FirstIndex(c)..], IsZero());
    assert s.history.owner.Keys == {};
    NoWork(c, FirstIndex(c));
  }

  lemma {:induction false} NoWork(c: Config, hi: nat)
    ensures Work(c, {}, hi) == 0
  {
    if hi > 0 {
      NoWork(c, hi - 1);
    }
  }

  /** An index above the bound costs nothing. */
  lemma LateIsFree(c: Config, o: nat)
    requires o > c.bound
    ensures Cost(c, o) == 0
  {}

  /** What the memory invariant says about the thread about to step. */
  ghost predicate StepFacts(c: Config, s: State, t: nat)
    requires WellFormed(c, s) && t < c.threads
  {
    && (forall o :: o in s.history.owner ==> o < s.globalIndex)
    && 1 <= s.globalIndex
    && match s.pcs[t] {
         case Unlock(o) => 1 <= o
         case Cross(o, k) =>
           1 <= o && (Crossing(c, o, k) ==> FirstIndex(c) <= Target(c, o, k))
         case Count(o, k) => 1 <= o && Crossing(c, o, k)
         case _ => true
       }
  }

  lemma MemoryGivesFacts(c: Config, s: State, t: nat)
    requires MemoryInv(c, s) && t < c.threads
    ensures StepFacts(c, s, t)
  {
    assert ThreadInv(c, s, t);
    if s.pcs[t].Cross? && Crossing(c, s.pcs[t].own, s.pcs[t].cursor) {
      var o, k := s.pcs[t].own, s.pcs[t].cursor;
      assert Target(c, o, k) in Targets(c, o, k);
      TargetsAbove(c, o, FirstCursor(c, o), Target(c, o, k));
    }
  }

  lemma WorkTake(c: Config, s: State, t: nat)
    requires WellFormed(c, s) && t < c.threads && StepFacts(c, s, t) && WorkInv(c, s) && s.pcs[t].Take?
    ensures WorkInv(c, Step(c, s, t))
  {
    var o := s.globalIndex;
    var s' := Goto(TakeIndex(c, s, t), t, Unlock(o));
    assert s' == Step(c, s, t);
    SumUpdate(s.pcs, t, Unlock(o), Owed(c));
    WorkFrame(c, s.history.owner.Keys, s'.history.owner.Keys, o);
    if o > c.bound { LateIsFree(c, o); }
  }

  /** A move that counts exactly what the thread owes less afterwards. */
  lemma WorkMove(c: Config, s: State, s': State, t: nat)
    requires WorkInv(c, s) && t < |s.pcs| == |s'.pcs| && s'.pcs == s.pcs[t := s'.pcs[t]]
    requires s'.history.owner == s.history.owner
    requires s'.globalIndex == s.globalIndex
             || (s'.globalIndex == s.globalIndex + 1 && s.globalIndex !in s.history.owner)
    requires CountSum(s') + Owed(c)(s'.pcs[t]) == CountSum(s) + Owed(c)(s.pcs[t])
    ensures WorkInv(c, s')
  {
    SumUpdate(s.pcs, t, s'.pcs[t], Owed(c));
  }

  lemma WorkCount(c: Config, s: State, t: nat)
    requires WellFormed(c, s) && t < c.threads && StepFacts(c, s, t) && WorkInv(c, s) && s.pcs[t].Count?
    ensures WorkInv(c, Step(c, s, t))
  {
    SumUpdate(s.counters, t, s.counters[t] + 1, Value());
    WorkMove(c, s, Step(c, s, t), t);
  }

  lemma WorkUnlock(c: Config, s: State, t: nat)
    requires WellFormed(c, s) && t < c.threads && StepFacts(c, s, t) && WorkInv(c, s) && s.pcs[t].Unlock?
    ensures WorkInv(c, Step(c, s, t))
  {
    if s.pcs[t].own > c.bound { LateIsFree(c, s.pcs[t].own); }
    WorkMove(c, s, Step(c, s, t), t);
  }

  /** Outside `compute` nothing is counted, written or taken. */
  lemma OutsideFrame(c: Config, s: State, t: nat)
    requires WellFormed(c, s) && t < c.threads && !Computing(s.pcs[t])
    ensures var s' := Step(c, s, t);
      && s'.pcs == s.pcs[t := s'.pcs[t]]
      && s'.counters == s.counters && s'.numbers == s.numbers && s'.globalIndex == s.globalIndex
      && s'.history.owner == s.history.owner && s'.history.wasted == s.history.wasted
      && Owed(c)(s'.pcs[t]) == 0 && AtCount()(s'.pcs[t]) == 0
  {}

  lemma WorkStepKeeps(c: Config, s: State, t: nat)
    requires WellFormed(c, s) && t < c.threads && StepFacts(c, s, t) && WorkInv(c, s)
    ensures WorkInv(c, Step(c, s, t))
  {
    if !Computing(s.pcs[t]) {
      OutsideFrame(c, s, t);
      WorkMove(c, s, Step(c, s, t), t);
    } else {
      match s.pcs[t] {
        case Take => WorkTake(c, s, t);
        case Count(_, _) => WorkCount(c, s, t);
        case Unlock(_) => WorkUnlock(c, s, t);
        case Cross(_, _) => WorkMove(c, s, Step(c, s, t), t);
        case _ => WorkControl(c, s, t);
      }
    }
  }

  lemma WorkControl(c: Config, s: State, t: nat)
    requires WellFormed(c, s) && t < c.threads && StepFacts(c, s, t) && WorkInv(c, s)
    requires s.pcs[t].Lock? || s.pcs[t].Scan? || s.pcs[t].Skip? || s.pcs[t].Recheck?
    ensures WorkInv(c, Step(c, s, t))
  {
    if Step(c, s, t) != s { WorkMove(c, s, Step(c, s, t), t); }
  }

  lemma {:induction false} TargetsAbove(c: Config, own: nat, cursor: nat, x: nat)
    requires 1 <= own && x in Targets(c, own, cursor)
    ensures if c.algorithm == Eratosthenes then cursor <= x else own <= x
    decreases Slack(c, cursor)
  {
    CrossingProgress(c, own, cursor);
    if x != Target(c, own, cursor) {
      TargetsAbove(c, own, NextCursor(c, own, cursor), x);
    } else {
      assert 0 <= 2 * cursor * own;
    }
  }

  lemma WasteCross(c: Config, s: State, t: nat)
    requires WellFormed(c, s) && t < c.threads && StepFacts(c, s, t) && WasteInv(c, s)
    requires s.pcs[t].Cross? && Crossing(c, s.pcs[t].own, s.pcs[t].cursor)
    ensures WasteInv(c, Step(c, s, t))
  {
    var o, k, lo := s.pcs[t].own, s.pcs[t].cursor, FirstIndex(c);
    var y := Target(c, o, k);
    var s' := Goto(Zero(s, y), t, Count(o, k));
    assert s' == Step(c, s, t);
    assert s'.numbers[lo..] == s.numbers[lo..][y - lo := 0];
    SumUpdate(s.numbers[lo..], y - lo, 0, IsZero());
    SumUpdate(s.pcs, t, Count(o, k), AtCount());
  }

  /** A move that crosses nothing out. */
  lemma WasteMove(c: Config, s: State, s': State, t: nat)
    requires WellFormed(c, s) && WellFormed(c, s') && WasteInv(c, s)
    requires t < |s.pcs| && s'.pcs == s.pcs[t := s'.pcs[t]]
    requires s'.numbers == s.numbers && s'.history.wasted == s.history.wasted
    requires CountSum(s') + AtCount()(s'.pcs[t]) == CountSum(s) + AtCount()(s.pcs[t])
    ensures WasteInv(c, s')
  {
    SumUpdate(s.pcs, t, s'.pcs[t], AtCount());
  }

  lemma WasteStepKeeps(c: Config, s: State, t: nat)
    requires WellFormed(c, s) && t < c.threads && StepFacts(c, s, t) && WasteInv(c, s)
    ensures WasteInv(c, Step(c, s, t))
  {
    if !Computing(s.pcs[t]) {
      OutsideFrame(c, s, t);
      WasteMove(c, s, Step(c, s, t), t);
    } else if s.pcs[t].Cross? && Crossing(c, s.pcs[t].own, s.pcs[t].cursor) {
      WasteCross(c, s, t);
    } else {
      WasteCompute(c, s, t);
    }
  }

  lemma WasteCompute(c: Config, s: State, t: nat)
    requires WellFormed(c, s) && t < c.threads && WasteInv(c, s) && Computing(s.pcs[t])
    requires !(s.pcs[t].Cross? && Crossing(c, s.pcs[t].own, s.pcs[t].cursor))
    ensures WasteInv(c, Step(c, s, t))
  {
    var s' := Step(c, s, t);
    if s.pcs[t].Count? {
      SumUpdate(s.counters, t, s.counters[t] + 1, Value());
      WasteMove(c, s, s', t);
    } else if s' != s {
      WasteMove(c, s, s', t);
    }
  }

  lemma {:induction false} WorkHolds(c: Config, sched: seq<nat>)
    requires Accepted(c) && Schedule(c, sched)
    ensures WorkInv(c, Run(c, Init(c), sched)) && WasteInv(c, Run(c, Init(c), sched))
  {
    if sched == [] {
      InitWork(c);
    } else {
      var s, t := Run(c, Init(c), sched[..|sched|-1]), sched[|sched|-1];
      WorkHolds(c, sched[..|sched|-1]);
      MemoryHolds(c, sched[..|sched|-1]);
      MemoryGivesFacts(c, s, t);
      WorkStepKeeps(c, s, t);
      WasteStepKeeps(c, s, t);
    }
  }

  /** Outside `compute` nothing is owed: the counters add up to the cost of the taken indices,
      and exceed the zeroes by the writes that hit an entry already zero. */
  lemma WorkAtRest(c: Config, sched: seq<nat>)
    requires Accepted(c) && Schedule(c, sched)
    requires AllPastCompute(Run(c, Init(c), sched))
    ensures var s := Run(c, Init(c), sched);
      && CountSum(s) == Work(c, s.history.owner.Keys, c.bound + 1)
      && CountSum(s) - Zeroes(c, s) == s.history.wasted
  {
    var s := Run(c, Init(c), sched);
    WorkHolds(c, sched);
    MemoryHolds(c, sched);
    SumZero(s.pcs, Owed(c));
    SumZero(s.pcs, AtCount());
    assert ThreadInv(c, s, 0);
    WorkBeyond(c, s.history.owner.Keys, s.globalIndex);
  }

  lemma {:induction false} WorkBeyond(c: Config, taken: set<nat>, hi: nat)
    requires c.bound < hi && forall o :: o in taken ==> o <= c.bound
    ensures Work(c, taken, hi) == Work(c, taken, c.bound + 1)
  {
    if hi > c.bound + 1 {
      WorkBeyond(c, taken, hi - 1);
    }
  }
}
