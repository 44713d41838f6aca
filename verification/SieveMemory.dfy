/** The shared index, the spinlock and the numbers array: what holds in every reachable state. */
module SieveMemory {
  import opened SieveMachine

  /** The entries the inner loop of `own` still writes from `cursor` on. */
  function Targets(c: Config, own: nat, cursor: nat): set<nat>
    requires 1 <= own
    decreases Slack(c, cursor)
  {
    if Crossing(c, own, cursor) then
      CrossingProgress(c, own, cursor);
      {Target(c, own, cursor)} + Targets(c, own, NextCursor(c, own, cursor))
    else {}
  }

  /** All entries the inner loop of `own` writes. */
  function AllTargets(c: Config, own: nat): set<nat>
    requires 1 <= own
  {
    Targets(c, own, FirstCursor(c, own))
  }

  lemma {:induction false} TargetsInBound(c: Config, own: nat, cursor: nat)
    requires 1 <= own
    ensures forall x :: x in Targets(c, own, cursor) ==> x <= c.bound
    decreases Slack(c, cursor)
  {
    if Crossing(c, own, cursor) {
      CrossingProgress(c, own, cursor);
      TargetsInBound(c, own, NextCursor(c, own, cursor));
    }
  }

  /** Some index taken so far crosses x out. */
  ghost predicate Struck(c: Config, taken: set<nat>, x: nat) {
    exists o :: o in taken && 1 <= o && x in AllTargets(c, o)
  }

  /** A thread at pc, working on o, has the write of x before it. */
  predicate Owes(c: Config, pc: Pc, o: nat, x: nat)
    requires 1 <= o
  {
    match pc
    case Unlock(p) => p == o
    case Cross(p, k) => p == o && x in Targets(c, o, k)
    case Count(p, k) => p == o && x in Targets(c, o, NextCursor(c, o, k))
    case _ => false
  }

  // ----- the shared index and the lock -----

  ghost predicate Working(c: Config, s: State, t: nat, o: nat) {
    && FirstIndex(c) <= o < s.globalIndex
    && (o <= c.bound ==> o in s.history.owner && s.history.owner[o] == t)
    && (o > c.bound ==> t in s.history.late)
  }

  ghost predicate ThreadInv(c: Config, s: State, t: nat)
    requires WellFormed(c, s) && t < c.threads
  {
    && (Critical(s.pcs[t]) <==> s.holder == t)
    && (PastCompute(s.pcs[t]) ==> s.globalIndex > c.bound)
    && match s.pcs[t] {
         case Scan => c.algorithm == Eratosthenes
         case Skip => c.algorithm == Eratosthenes && s.globalIndex <= c.bound && s.numbers[s.globalIndex] == 0
         case Unlock(o) => Working(c, s, t, o)
         case Cross(o, k) =>
           && Working(c, s, t, o)
           && (c.algorithm == Eratosthenes ==> o <= c.bound)
           && Targets(c, o, k) <= AllTargets(c, o)
         case Count(o, k) =>
           && Working(c, s, t, o) && o <= c.bound
           && Crossing(c, o, k)
           && Targets(c, o, k) <= AllTargets(c, o)
           && s.numbers[Target(c, o, k)] == 0
         case _ => true
       }
  }

  /** Where a thread that took an index above the bound can stand. */
  predicate LatePc(c: Config, pc: Pc) {
    match pc
    case Unlock(o) => o > c.bound
    case Cross(o, _) => o > c.bound
    case Recheck => true
    case _ => PastCompute(pc)
  }

  ghost predicate IndexInv(c: Config, s: State) {
    && WellFormed(c, s)
    && FirstIndex(c) <= s.globalIndex
    && (s.holder == NOBODY || 0 <= s.holder < c.threads)
    && (forall t :: 0 <= t < c.threads ==> ThreadInv(c, s, t))
    && (forall u :: u in s.history.late ==> u < c.threads && LatePc(c, s.pcs[u]))
    && (if s.globalIndex <= c.bound then s.history.late == {}
        else s.globalIndex == c.bound + 1 + |s.history.late|)
  }

  // ----- the numbers array -----

  ghost predicate NumbersInv(c: Config, s: State)
    requires WellFormed(c, s)
  {
    forall x :: 0 <= x <= c.bound ==>
      s.numbers[x] == x || (s.numbers[x] == 0 && Struck(c, s.history.owner.Keys, x))
  }

  ghost predicate OwnersInv(c: Config, s: State) {
    forall o :: o in s.history.owner ==>
      FirstIndex(c) <= o < s.globalIndex && o <= c.bound && s.history.owner[o] < c.threads
  }

  /** Everything an owner has to cross out is crossed out, or still before it. */
  ghost predicate CoverInv(c: Config, s: State)
    requires WellFormed(c, s) && OwnersInv(c, s)
  {
    forall o, x :: o in s.history.owner && x in AllTargets(c, o) && x <= c.bound ==>
      s.numbers[x] == 0 || Owes(c, s.pcs[s.history.owner[o]], o, x)
  }

  /** The scan passes over an index only if its entry is zero. */
  ghost predicate ScannedInv(c: Config, s: State)
    requires WellFormed(c, s)
  {
    forall x :: FirstIndex(c) <= x < s.globalIndex && x <= c.bound ==>
      x in s.history.owner || (c.algorithm == Eratosthenes && s.numbers[x] == 0)
  }

  ghost predicate MemoryInv(c: Config, s: State) {
    && IndexInv(c, s)
    && NumbersInv(c, s)
    && OwnersInv(c, s)
    && CoverInv(c, s)
    && ScannedInv(c, s)
  }

  lemma InitMemory(c: Config)
    requires Accepted(c)
    ensures MemoryInv(c, Init(c))
  {}

  /** A move that changes no memory the computation depends on. */
  lemma QuietMove(c: Config, s: State, s': State, t: nat)
    requires MemoryInv(c, s) && WellFormed(c, s') && t < c.threads
    requires s'.pcs == s.pcs[t := s'.pcs[t]]
    requires s'.numbers == s.numbers && s'.globalIndex == s.globalIndex
    requires s'.history.owner == s.history.owner && s'.history.late == s.history.late
    requires s'.holder == (if Critical(s'.pcs[t]) then t else if Critical(s.pcs[t]) then NOBODY else s.holder)
    requires Critical(s'.pcs[t]) ==> s.holder == t || s.holder == NOBODY
    requires ThreadInv(c, s', t)
    requires t in s.history.late ==> LatePc(c, s'.pcs[t])
    requires forall o, x {:trigger Owes(c, s.pcs[t], o, x)} ::
      1 <= o && o in s.history.owner && x in AllTargets(c, o) && Owes(c, s.pcs[t], o, x) ==> Owes(c, s'.pcs[t], o, x)
    ensures MemoryInv(c, s')
  {
    forall u | 0 <= u < c.threads ensures ThreadInv(c, s', u) {
      assert ThreadInv(c, s, u) && ThreadInv(c, s, t);
    }
  }

  lemma TakeStep(c: Config, s: State, t: nat)
    requires MemoryInv(c, s) && t < c.threads && s.pcs[t].Take?
    ensures MemoryInv(c, Step(c, s, t))
  {
    var s' := Step(c, s, t);
    var o := s.globalIndex;
    assert ThreadInv(c, s, t);
    forall u | 0 <= u < c.threads ensures ThreadInv(c, s', u) {
      assert ThreadInv(c, s, u);
    }
    if o > c.bound {
      assert t !in s.history.late;
      assert |s'.history.late| == |s.history.late| + 1;
    }
    forall x | 0 <= x <= c.bound
      ensures s'.numbers[x] == x || (s'.numbers[x] == 0 && Struck(c, s'.history.owner.Keys, x))
    {
      StruckMonotone(c, s.history.owner.Keys, s'.history.owner.Keys, x);
    }
  }

  lemma StruckMonotone(c: Config, a: set<nat>, b: set<nat>, x: nat)
    requires a <= b
    ensures Struck(c, a, x) ==> Struck(c, b, x)
  {
    if Struck(c, a, x) {
      var o :| o in a && 1 <= o && x in AllTargets(c, o);
      assert o in b;
    }
  }

  lemma SkipStep(c: Config, s: State, t: nat)
    requires MemoryInv(c, s) && t < c.threads && s.pcs[t].Skip?
    ensures MemoryInv(c, Step(c, s, t))
  {
    var s' := Step(c, s, t);
    assert ThreadInv(c, s, t);
    forall u | 0 <= u < c.threads ensures ThreadInv(c, s', u) {
      assert ThreadInv(c, s, u);
    }
    assert s.history.late == {};
  }

  lemma CrossKeepsIndex(c: Config, s: State, s': State, t: nat, o: nat, k: nat)
    requires MemoryInv(c, s) && t < c.threads && s.pcs[t] == Cross(o, k)
    requires Crossing(c, o, k) && o <= c.bound && s' == Goto(Zero(s, Target(c, o, k)), t, Count(o, k))
    ensures IndexInv(c, s') && ScannedInv(c, s')
  {
    assert ThreadInv(c, s, t);
    forall u | 0 <= u < c.threads ensures ThreadInv(c, s', u) {
      assert ThreadInv(c, s, u);
    }
  }

  lemma CrossKeepsCover(c: Config, s: State, s': State, t: nat, o: nat, k: nat)
    requires MemoryInv(c, s) && t < c.threads && s.pcs[t] == Cross(o, k) && 1 <= o
    requires Crossing(c, o, k) && s' == Goto(Zero(s, Target(c, o, k)), t, Count(o, k))
    ensures OwnersInv(c, s') && CoverInv(c, s')
  {
    forall p, x | p in s'.history.owner && x in AllTargets(c, p) && x <= c.bound
      ensures s'.numbers[x] == 0 || Owes(c, s'.pcs[s'.history.owner[p]], p, x)
    {
      assert s.numbers[x] == 0 || Owes(c, s.pcs[s.history.owner[p]], p, x);
      if p == o && s.history.owner[p] == t && x in Targets(c, o, k) {
        assert x == Target(c, o, k) || x in Targets(c, o, NextCursor(c, o, k));
      }
    }
  }

  lemma CrossKeepsNumbers(c: Config, s: State, s': State, t: nat, o: nat, k: nat)
    requires WellFormed(c, s) && NumbersInv(c, s) && t < c.threads && 1 <= o && o in s.history.owner
    requires Crossing(c, o, k) && Targets(c, o, k) <= AllTargets(c, o)
    requires s' == Goto(Zero(s, Target(c, o, k)), t, Count(o, k))
    ensures NumbersInv(c, s')
  {
    var y := Target(c, o, k);
    assert y in Targets(c, o, k);
    assert Struck(c, s.history.owner.Keys, y);
  }

  lemma CrossStep(c: Config, s: State, t: nat)
    requires MemoryInv(c, s) && t < c.threads && s.pcs[t].Cross?
    requires Crossing(c, s.pcs[t].own, s.pcs[t].cursor)
    ensures MemoryInv(c, Step(c, s, t))
  {
    var o, k := s.pcs[t].own, s.pcs[t].cursor;
    var s' := Goto(Zero(s, Target(c, o, k)), t, Count(o, k));
    assert s' == Step(c, s, t);
    assert ThreadInv(c, s, t);
    CrossingInBound(c, o, k);
    CrossKeepsIndex(c, s, s', t, o, k);
    CrossKeepsCover(c, s, s', t, o, k);
    CrossKeepsNumbers(c, s, s', t, o, k);
  }

  lemma CrossingInBound(c: Config, o: nat, k: nat)
    requires Crossing(c, o, k) && (c.algorithm == Eratosthenes ==> o <= c.bound)
    ensures o <= c.bound
  {
    assert 0 <= 2 * k * o;
  }

  lemma CountStep(c: Config, s: State, t: nat)
    requires MemoryInv(c, s) && t < c.threads && s.pcs[t].Count?
    ensures MemoryInv(c, Step(c, s, t))
  {
    assert ThreadInv(c, s, t);
    QuietMove(c, s, Step(c, s, t), t);
  }

  lemma UnlockStep(c: Config, s: State, t: nat)
    requires MemoryInv(c, s) && t < c.threads && s.pcs[t].Unlock?
    ensures MemoryInv(c, Step(c, s, t))
  {
    assert ThreadInv(c, s, t);
    QuietMove(c, s, Step(c, s, t), t);
  }

  lemma CrossEndStep(c: Config, s: State, t: nat)
    requires MemoryInv(c, s) && t < c.threads && s.pcs[t].Cross?
    requires !Crossing(c, s.pcs[t].own, s.pcs[t].cursor)
    ensures MemoryInv(c, Step(c, s, t))
  {
    assert ThreadInv(c, s, t);
    QuietMove(c, s, Step(c, s, t), t);
  }

  lemma GuardFrame(c: Config, s: State, t: nat)
    requires WellFormed(c, s) && t < c.threads && s.pcs[t].Barrier?
    ensures var s' := BarrierStep(c, s, t);
      && WellFormed(c, s')
      && s'.pcs == s.pcs[t := s'.pcs[t]]
      && s'.numbers == s.numbers && s'.globalIndex == s.globalIndex && s'.holder == s.holder
      && s'.history.owner == s.history.owner && s'.history.late == s.history.late
      && (s'.pcs[t].Lock? || s'.pcs[t].ReadFlag? || s'.pcs[t].Barrier?)
      && (PastCompute(s'.pcs[t]) <==> PastCompute(s.pcs[t]))
  {}

  /** A step of `sbarrier`. */
  lemma GuardStep(c: Config, s: State, t: nat)
    requires MemoryInv(c, s) && t < c.threads && s.pcs[t].Barrier?
    ensures MemoryInv(c, Step(c, s, t))
  {
    assert ThreadInv(c, s, t);
    GuardFrame(c, s, t);
    QuietMove(c, s, BarrierStep(c, s, t), t);
  }

  /** A step of the flag, or of a finished thread. */
  lemma FlagStep(c: Config, s: State, t: nat)
    requires MemoryInv(c, s) && t < c.threads && PastCompute(s.pcs[t]) && !s.pcs[t].Barrier?
    ensures MemoryInv(c, Step(c, s, t))
  {
    var s' := Step(c, s, t);
    assert ThreadInv(c, s, t);
    if s' != s {
      QuietMove(c, s, s', t);
    }
  }

  lemma MemoryStepKeeps(c: Config, s: State, t: nat)
    requires MemoryInv(c, s) && t < c.threads
    ensures MemoryInv(c, Step(c, s, t))
  {
    if s.pcs[t].Barrier? {
      GuardStep(c, s, t);
    } else if PastCompute(s.pcs[t]) {
      FlagStep(c, s, t);
    } else {
      match s.pcs[t] {
        case Take => TakeStep(c, s, t);
        case Skip => SkipStep(c, s, t);
        case Unlock(_) => UnlockStep(c, s, t);
        case Count(_, _) => CountStep(c, s, t);
        case Cross(o, k) =>
          if Crossing(c, o, k) { CrossStep(c, s, t); } else { CrossEndStep(c, s, t); }
        case _ => ControlStep(c, s, t);
      }
    }
  }

  /** Acquiring the lock, scanning, and the loop condition. */
  lemma ControlStep(c: Config, s: State, t: nat)
    requires MemoryInv(c, s) && t < c.threads
    requires s.pcs[t].Lock? || s.pcs[t].Scan? || s.pcs[t].Recheck?
    ensures MemoryInv(c, Step(c, s, t))
  {
    var s' := Step(c, s, t);
    assert ThreadInv(c, s, t);
    if s' != s {
      QuietMove(c, s, s', t);
    }
  }

  lemma {:induction false} MemoryHolds(c: Config, sched: seq<nat>)
    requires Accepted(c) && Schedule(c, sched)
    ensures MemoryInv(c, Run(c, Init(c), sched))
  {
    if sched == [] {
      InitMemory(c);
    } else {
      MemoryHolds(c, sched[..|sched|-1]);
      MemoryStepKeeps(c, Run(c, Init(c), sched[..|sched|-1]), sched[|sched|-1]);
    }
  }
}
