/** What the schedule can and cannot change about the work of the Eratosthenes module. */
module SieveSchedules {
  import opened SieveMachine
  import opened SieveMemory
  import opened SieveWork
  import opened SieveBarrier
  import opened SieveProgress
  import opened SieveResults
  import opened Primes

  // ----- one thread at a time in the critical section -----

  /** The spinlock excludes: at most one thread stands between lock and unlock. */
  lemma MutualExclusion(c: Config, sched: seq<nat>, t: nat, u: nat)
    requires Accepted(c) && Schedule(c, sched) && t < c.threads && u < c.threads
    ensures var s := Run(c, Init(c), sched);
      Critical(s.pcs[t]) && Critical(s.pcs[u]) ==> t == u
  {
    Reachable(c, sched);
    var s := Run(c, Init(c), sched);
    assert ThreadInv(c, s, t) && ThreadInv(c, s, u);
  }

  /** No index is taken twice: once taken, it keeps its owner for the rest of the run. */
  lemma {:induction false} IndexTakenOnce(c: Config, sched: seq<nat>, later: seq<nat>, o: nat)
    requires Accepted(c) && Schedule(c, sched) && Schedule(c, later)
    requires o in Run(c, Init(c), sched).history.owner
    ensures Schedule(c, sched + later)
    ensures var a, b := Run(c, Init(c), sched).history, Run(c, Init(c), sched + later).history;
      o in b.owner && b.owner[o] == a.owner[o]
  {
    hide Step, MemoryInv, BarrierInv;
    if later == [] {
      assert sched + later == sched;
    } else {
      var n := |later| - 1;
      var all := sched + later;
      IndexTakenOnce(c, sched, later[..n], o);
      assert all[..|all| - 1] == sched + later[..n];
      Reachable(c, all[..|all| - 1]);
      OwnerStays(c, Run(c, Init(c), all[..|all| - 1]), later[n], o);
    }
  }

  lemma OwnerStays(c: Config, s: State, t: nat, o: nat)
    requires MemoryInv(c, s) && t < c.threads && o in s.history.owner
    ensures var s' := Step(c, s, t); o in s'.history.owner && s'.history.owner[o] == s.history.owner[o]
  {
    assert WellFormed(c, s) && o < s.globalIndex;
    hide MemoryInv, IndexInv, Crossing, Target, FirstCursor, NextCursor;
  }

  // ----- every run can be completed -----

  lemma Standing(c: Config, sched: seq<nat>)
    requires Accepted(c) && Schedule(c, sched)
    ensures Inv(c, Run(c, Init(c), sched)) && 0 <= Measure(c, Run(c, Init(c), sched))
  {
    hide Measure;
    Reachable(c, sched);
    IndexBounded(c, Run(c, Init(c), sched));
    MeasureIsNatural(c, Run(c, Init(c), sched));
  }

  lemma {:induction false} RunCompletes(c: Config, sched: seq<nat>) returns (later: seq<nat>)
    requires Accepted(c) && Schedule(c, sched)
    ensures Schedule(c, later) && Schedule(c, sched + later)
    ensures AllDone(Run(c, Init(c), sched + later))
    decreases Measure(c, Run(c, Init(c), sched))
  {
    hide Step, Inv, Measure, AllDone, Run;
    var s := Run(c, Init(c), sched);
    Standing(c, sched);
    if AllDone(s) {
      later := [];
      assert sched + later == sched;
    } else {
      var t := SomebodyMoves(c, s);
      SpinOrBurn(c, s, t);
      RunOne(c, Init(c), sched, t);
      Standing(c, sched + [t]);
      var rest := RunCompletes(c, sched + [t]);
      later := [t] + rest;
      assert sched + later == (sched + [t]) + rest;
    }
  }

  // ----- what makes a run do more than the least work -----

  lemma {:induction false} MoreThanPrimes(bound: nat, taken: set<nat>, hi: nat)
    requires hi <= bound + 1
    requires forall p: nat :: Prime(p) && p < hi ==> p in taken
    ensures PrimeWork(bound, hi) <= MultiplesWork(bound, taken, hi)
    ensures PrimeWork(bound, hi) == MultiplesWork(bound, taken, hi) <==>
      forall o: nat :: 2 <= o < hi && o in taken && 2 * o <= bound ==> Prime(o)
  {
    if hi > 2 {
      MoreThanPrimes(bound, taken, hi - 1);
      QuotientAtLeastOne(bound, hi - 1);
      QuotientAtLeastTwo(bound, hi - 1);
    }
  }

  lemma QuotientAtLeastTwo(b: nat, o: nat)
    requires 1 <= o <= b
    ensures 2 <= b / o <==> 2 * o <= b
  {
    var q := b / o;
    assert b == o * q + b % o;
    if q >= 2 {
      MultipleSize(o, q - 1);
      assert o * (q - 1) == o * q - o;
    } else {
      assert q == 0 || q == 1;
    }
  }

  /** A finished run does the least work exactly if every composite it has taken is above half the
      bound, where it costs nothing. */
  lemma ExtraWorkIff(c: Config, sched: seq<nat>)
    requires c.algorithm == Eratosthenes && Accepted(c) && Schedule(c, sched)
    requires AllPastCompute(Run(c, Init(c), sched))
    ensures var s := Run(c, Init(c), sched);
      CountSum(s) == PrimeWork(c.bound, c.bound + 1) <==>
      forall o: nat :: o in s.history.owner && 2 * o <= c.bound ==> Prime(o)
  {
    hide Run, Prime, PrimeWork, MultiplesWork;
    EratosthenesWorkLaw(c, sched);
    MoreThanPrimes(c.bound, Run(c, Init(c), sched).history.owner.Keys, c.bound + 1);
  }

  // ----- a schedule that takes a composite -----

  /** The first k threads spin in the first barrier, the others have not begun. */
  function Gathering(c: Config, k: nat): State
    requires Accepted(c) && k < c.threads
  {
    Init(c).(startGuard := c.threads - k,
             pcs := seq(c.threads, i => Barrier(0, if i < k then SpinStart else SpinEnd)))
  }

  lemma GatherOne(c: Config, k: nat)
    requires Accepted(c) && k + 1 < c.threads
    ensures Step(c, Step(c, Gathering(c, k), k), k) == Gathering(c, k + 1)
  {
    var s := Gathering(c, k);
    var s1 := Step(c, s, k);
    assert s1 == Goto(s, k, Barrier(0, Enter));
    assert Step(c, s1, k).pcs == Gathering(c, k + 1).pcs;
  }

  lemma RunTwo(c: Config, s: State, sched: seq<nat>, t: nat)
    requires WellFormed(c, s) && Schedule(c, sched) && t < c.threads
    ensures Schedule(c, sched + [t, t])
    ensures Run(c, s, sched + [t, t]) == Step(c, Step(c, Run(c, s, sched), t), t)
  {
    var a := sched + [t];
    assert a[..|sched|] == sched;
    assert sched + [t, t] == a + [t];
    assert (a + [t])[..|a|] == a;
  }

  lemma {:induction false} GatherMany(c: Config, k: nat) returns (sched: seq<nat>)
    requires Accepted(c) && k < c.threads
    ensures Schedule(c, sched) && Run(c, Init(c), sched) == Gathering(c, k)
  {
    if k == 0 {
      sched := [];
      assert Gathering(c, 0).pcs == Init(c).pcs;
    } else {
      var before := GatherMany(c, k - 1);
      RunTwo(c, Init(c), before, k - 1);
      GatherOne(c, k - 1);
      sched := before + [k - 1, k - 1];
    }
  }

  /** The last thread has let everybody go; the first k threads have left. */
  function Releasing(c: Config, k: nat): State
    requires Accepted(c) && k < c.threads
  {
    var h := Init(c).history;
    Init(c).(endGuard := k, barrierState := 1, history := h.(phase := 1),
             pcs := seq(c.threads, i =>
               if i < k then Lock else Barrier(0, if i == c.threads - 1 then Leave else SpinStart)))
  }

  lemma LastIn(c: Config)
    requires Accepted(c)
    ensures var n := c.threads - 1;
      Step(c, Step(c, Step(c, Step(c, Gathering(c, n), n), n), n), n) == Releasing(c, 0)
  {
    var n := c.threads - 1;
    var s := Gathering(c, n);
    var s1 := Goto(s, n, Barrier(0, Enter));
    assert Step(c, s, n) == s1;
    var s2 := Goto(s1.(startGuard := 0), n, Barrier(0, Announce));
    assert Step(c, s1, n) == s2;
    var s3 := Goto(s2.(barrierState := 1), n, Barrier(0, Reopen));
    assert Step(c, s2, n) == s3;
    assert Step(c, s3, n).pcs == Releasing(c, 0).pcs;
  }

  lemma ReleaseOne(c: Config, k: nat)
    requires Accepted(c) && k + 1 < c.threads
    ensures Step(c, Step(c, Releasing(c, k), k), k) == Releasing(c, k + 1)
  {
    var s := Releasing(c, k);
    var s1 := Goto(s, k, Barrier(0, Leave));
    assert Step(c, s, k) == s1;
    assert Step(c, s1, k).pcs == Releasing(c, k + 1).pcs;
  }

  lemma {:induction false} ReleaseMany(c: Config, k: nat) returns (sched: seq<nat>)
    requires Accepted(c) && k < c.threads
    ensures Schedule(c, sched) && Run(c, Init(c), sched) == Releasing(c, k)
  {
    hide Step;
    if k == 0 {
      var n := c.threads - 1;
      var before := GatherMany(c, n);
      RunTwo(c, Init(c), before, n);
      RunTwo(c, Init(c), before + [n, n], n);
      LastIn(c);
      sched := before + [n, n] + [n, n];
    } else {
      var before := ReleaseMany(c, k - 1);
      RunTwo(c, Init(c), before, k - 1);
      ReleaseOne(c, k - 1);
      sched := before + [k - 1, k - 1];
    }
  }

  /** Every thread has passed the first barrier, and none has gone on. */
  function Gathered(c: Config): State
    requires Accepted(c)
  {
    var h := Init(c).history;
    Init(c).(barrierState := 1, history := h.(phase := 2), pcs := seq(c.threads, _ => Lock))
  }

  lemma LastOut(c: Config)
    requires Accepted(c)
    ensures var n := c.threads - 1; Step(c, Step(c, Releasing(c, n), n), n) == Gathered(c)
  {
    var n := c.threads - 1;
    var s := Releasing(c, n);
    var s1 := Goto(s.(endGuard := c.threads), n, Barrier(0, Clear));
    assert Step(c, s, n) == s1;
    assert Step(c, s1, n).pcs == Gathered(c).pcs;
  }

  /** A thread alone takes the shared index: lock, scan, take, unlock. */
  lemma TakeAlone(c: Config, s: State, t: nat)
    requires WellFormed(c, s) && c.algorithm == Eratosthenes && t < c.threads
    requires s.pcs[t].Lock? && s.holder == NOBODY
    requires s.globalIndex <= c.bound && s.numbers[s.globalIndex] != 0
    ensures var o := s.globalIndex;
      var s' := Step(c, Step(c, Step(c, Step(c, s, t), t), t), t);
      && s'.pcs == s.pcs[t := Cross(o, 2 * o)]
      && s'.holder == NOBODY && s'.globalIndex == o + 1 && s'.numbers == s.numbers
      && s'.history.owner == s.history.owner[o := t]
  {
    var o := s.globalIndex;
    var s1 := Goto(s.(holder := t), t, Scan);
    assert Step(c, s, t) == s1;
    var s2 := Goto(s1, t, Take);
    assert Step(c, s1, t) == s2;
    var s3 := Goto(TakeIndex(c, s2, t), t, Unlock(o));
    assert Step(c, s2, t) == s3;
  }

  lemma RunOne(c: Config, s: State, sched: seq<nat>, t: nat)
    requires WellFormed(c, s) && Schedule(c, sched) && t < c.threads
    ensures Schedule(c, sched + [t])
    ensures Run(c, s, sched + [t]) == Step(c, Run(c, s, sched), t)
  {
    assert (sched + [t])[..|sched|] == sched;
  }

  /** A thread alone runs its inner loop to the end; only multiples of its index change. */
  lemma {:induction false} CrossAlone(c: Config, before: seq<nat>, t: nat, o: nat, k: nat) returns (sched: seq<nat>)
    requires c.algorithm == Eratosthenes && Accepted(c) && Schedule(c, before) && t < c.threads
    requires Run(c, Init(c), before).pcs[t] == Cross(o, k) && 1 <= o && k % o == 0
    ensures Schedule(c, sched)
    ensures var s, s' := Run(c, Init(c), before), Run(c, Init(c), sched);
      && s'.pcs == s.pcs[t := Recheck] && s'.holder == s.holder
      && s'.globalIndex == s.globalIndex && s'.history.owner == s.history.owner
      && forall x :: 0 <= x <= c.bound && x % o != 0 ==> s'.numbers[x] == s.numbers[x]
    decreases Slack(c, k)
  {
    hide Run, Step;
    var s := Run(c, Init(c), before);
    if Crossing(c, o, k) {
      RunTwo(c, Init(c), before, t);
      CrossOne(c, s, t, o, k);
      CrossingProgress(c, o, k);
      MultipleStep(o, k);
      sched := CrossAlone(c, before + [t, t], t, o, k + o);
    } else {
      RunOne(c, Init(c), before, t);
      CrossEnd(c, s, t, o, k);
      sched := before + [t];
    }
  }

  lemma CrossOne(c: Config, s: State, t: nat, o: nat, k: nat)
    requires c.algorithm == Eratosthenes && WellFormed(c, s) && t < c.threads && s.pcs[t] == Cross(o, k)
    requires Crossing(c, o, k)
    ensures var s' := Step(c, Step(c, s, t), t);
      && s'.pcs == s.pcs[t := Cross(o, k + o)] && s'.numbers == s.numbers[k := 0]
      && s'.holder == s.holder && s'.globalIndex == s.globalIndex && s'.history.owner == s.history.owner
  {
    assert Step(c, s, t) == Goto(Zero(s, k), t, Count(o, k));
  }

  lemma CrossEnd(c: Config, s: State, t: nat, o: nat, k: nat)
    requires WellFormed(c, s) && t < c.threads && s.pcs[t] == Cross(o, k) && !Crossing(c, o, k)
    ensures Step(c, s, t) == Goto(s, t, Recheck)
  {}

  /** Two threads can take the composite 4: the first takes 2 and stalls, the second takes 3, does
      its work, and comes back before 4 is crossed out. */
  lemma TakeFour(c: Config) returns (sched: seq<nat>)
    requires c.algorithm == Eratosthenes && Accepted(c) && c.threads >= 2 && c.bound >= 4
    ensures Schedule(c, sched) && 4 in Run(c, Init(c), sched).history.owner
  {
    hide Run, Step;
    var a := PassBarrier(c);
    var b := TakeNext(c, a, 0);
    var d := TakeNext(c, b, 1);
    var e := CrossAlone(c, d, 1, 3, 6);
    RunOne(c, Init(c), e, 1);
    Return(c, Run(c, Init(c), e), 1);
    sched := TakeNext(c, e + [1], 1);
  }

  lemma PassBarrier(c: Config) returns (sched: seq<nat>)
    requires Accepted(c)
    ensures Schedule(c, sched) && Run(c, Init(c), sched) == Gathered(c)
  {
    hide Step;
    var n := c.threads - 1;
    var a := ReleaseMany(c, n);
    RunTwo(c, Init(c), a, n);
    LastOut(c);
    sched := a + [n, n];
  }

  lemma Return(c: Config, s: State, t: nat)
    requires WellFormed(c, s) && t < c.threads && s.pcs[t].Recheck? && s.globalIndex <= c.bound
    ensures Step(c, s, t) == Goto(s, t, Lock)
  {}

  lemma TakeNext(c: Config, before: seq<nat>, t: nat) returns (sched: seq<nat>)
    requires c.algorithm == Eratosthenes && Accepted(c) && Schedule(c, before) && t < c.threads
    requires var s := Run(c, Init(c), before);
      && s.pcs[t].Lock? && s.holder == NOBODY
      && s.globalIndex <= c.bound && s.numbers[s.globalIndex] != 0
    ensures Schedule(c, sched)
    ensures var s, s' := Run(c, Init(c), before), Run(c, Init(c), sched);
      var o := s.globalIndex;
      && s'.pcs == s.pcs[t := Cross(o, 2 * o)]
      && s'.holder == NOBODY && s'.globalIndex == o + 1 && s'.numbers == s.numbers
      && s'.history.owner == s.history.owner[o := t]
  {
    RunTwo(c, Init(c), before, t);
    RunTwo(c, Init(c), before + [t, t], t);
    TakeAlone(c, Run(c, Init(c), before), t);
    sched := before + [t, t] + [t, t];
  }

  /** Some completed run does more than the least work. */
  ghost predicate ExtraWorkPossible(c: Config)
    requires Accepted(c)
  {
    exists sched :: Schedule(c, sched) && AllDone(Run(c, Init(c), sched))
      && CountSum(Run(c, Init(c), sched)) > PrimeWork(c.bound, c.bound + 1)
  }

  /** The schedule can make a difference exactly from two threads and a bound of eight on. */
  lemma ScheduleMattersIff(c: Config)
    requires c.algorithm == Eratosthenes && Accepted(c)
    ensures ExtraWorkPossible(c) <==> c.threads >= 2 && c.bound >= 8
  {
    hide Step, Run, PrimeWork;
    if c.threads >= 2 && c.bound >= 8 {
      var a := TakeFour(c);
      var b := RunCompletes(c, a);
      IndexTakenOnce(c, a, b, 4);
      var s := Run(c, Init(c), a + b);
      EratosthenesWorkLaw(c, a + b);
      ExtraWorkIff(c, a + b);
      EvenNotPrime(4);
      assert CountSum(s) != PrimeWork(c.bound, c.bound + 1);
    } else if ExtraWorkPossible(c) {
      var sched :| Schedule(c, sched) && AllDone(Run(c, Init(c), sched))
        && CountSum(Run(c, Init(c), sched)) > PrimeWork(c.bound, c.bound + 1);
      if c.threads == 1 {
        SoloWorkIsLeast(c, sched);
      } else {
        EratosthenesWorkLaw(c, sched);
        ExtraWorkIff(c, sched);
        SmallPrimes();
      }
      assert false;
    }
  }

  lemma SmallPrimes()
    ensures Prime(2) && Prime(3)
  {}
}
