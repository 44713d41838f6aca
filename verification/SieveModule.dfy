/** The kernel module as a program: shared variables, updated in place one access at a time. */
module SieveModule {
  import opened Sums
  import opened SieveMachine
  import opened SieveWork
  import opened SieveLifecycle
  import opened SieveResults
  import opened Primes

  datatype Option<+T> = None | Some(value: T)

  /** What the exit routine prints: the numbers, their count, the rest, the counters' total and
      the excess of cross-outs. */
  datatype ExitReport = ExitReport(printed: seq<int>, primeNums: int, nonPrimes: int, countSum: int, excess: int)

  class Sieve {
    const c: Config
    const numbers: array<int>
    const counters: array<int>
    var globalIndex: nat
    var startGuard: int
    var endGuard: int
    var barrierState: int
    var beginFlag: int
    var holder: int
    var pcs: seq<Pc>
    ghost var history: History

    /** The shared variables as one value. */
    ghost function View(): State
      reads this, numbers, counters
    {
      State(numbers[..], counters[..], globalIndex, startGuard, endGuard, barrierState, beginFlag,
            holder, pcs, history)
    }

    ghost predicate Valid()
      reads this, numbers, counters
    {
      numbers != counters && WellFormed(c, View())
    }

    /** The init routine, once it has accepted the parameters. */
    constructor (c: Config)
      requires Accepted(c)
      ensures Valid() && this.c == c && View() == Init(c)
      ensures fresh(numbers) && fresh(counters)
    {
      this.c := c;
      numbers := new int[c.bound + 1];
      counters := new int[c.threads];
      globalIndex := FirstIndex(c);
      startGuard := c.threads;
      endGuard := 0;
      barrierState := 0;
      beginFlag := RUNNING;
      holder := NOBODY;
      pcs := seq(c.threads, _ => Barrier(0, SpinEnd));
      history := History(0, map[], {}, 0);
      new;
      for i := 0 to c.threads
        modifies counters
        invariant forall j :: 0 <= j < i ==> counters[j] == 0
      {
        counters[i] := 0;
      }
      for i := 0 to c.bound + 1
        modifies numbers
        invariant forall j :: 0 <= j < i ==> numbers[j] == j
      {
        numbers[i] := i;
      }
      assert counters[..] == Init(c).counters;
      assert numbers[..] == Init(c).numbers;
    }

    /** One access of `sbarrier` by thread t. */
    method SBarrier(t: nat)
      requires Valid() && t < c.threads && pcs[t].Barrier?
      modifies this
      ensures Valid() && View() == BarrierStep(c, old(View()), t)
    {
      var r := pcs[t].round;
      match pcs[t].stage {
        case SpinEnd =>
          if endGuard == 0 { pcs := pcs[t := Barrier(r, Enter)]; }
        case Enter =>
          startGuard := startGuard - 1;
          pcs := pcs[t := Barrier(r, if startGuard == 0 then Announce else SpinStart)];
        case Announce =>
          barrierState := barrierState + 1;
          pcs := pcs[t := Barrier(r, Reopen)];
        case Reopen =>
          startGuard := c.threads;
          history := history.(phase := history.phase + 1);
          pcs := pcs[t := Barrier(r, Leave)];
        case SpinStart =>
          if startGuard == c.threads { pcs := pcs[t := Barrier(r, Leave)]; }
        case Leave =>
          endGuard := endGuard + 1;
          pcs := pcs[t := if endGuard == c.threads then Barrier(r, Clear) else AfterBarrier(r)];
        case Clear =>
          endGuard := 0;
          history := history.(phase := history.phase + 1);
          pcs := pcs[t := AfterBarrier(r)];
      }
    }

    /** One access of `compute` by thread t. */
    method Compute(t: nat)
      requires Valid() && t < c.threads
      requires !pcs[t].Barrier? && !pcs[t].ReadFlag? && !pcs[t].ClearFlag? && !pcs[t].Done?
      modifies this, numbers, counters
      ensures Valid() && View() == ComputeStep(c, old(View()), t)
    {
      match pcs[t] {
        case Lock =>
          if holder == NOBODY {
            holder := t;
            pcs := pcs[t := if c.algorithm == Eratosthenes then Scan else Take];
          }
        case Scan =>
          pcs := pcs[t := if globalIndex <= c.bound && numbers[globalIndex] == 0 then Skip else Take];
        case Skip =>
          globalIndex := globalIndex + 1;
          pcs := pcs[t := Scan];
        case Take =>
          var original := globalIndex;
          globalIndex := globalIndex + 1;
          history := if original <= c.bound then history.(owner := history.owner[original := t])
                     else history.(late := history.late + {t});
          pcs := pcs[t := Unlock(original)];
        case Unlock(o) =>
          holder := NOBODY;
          pcs := pcs[t := if c.algorithm == Eratosthenes && o > c.bound then Recheck else Cross(o, FirstCursor(c, o))];
        case Cross(o, k) =>
          if Crossing(c, o, k) {
            CrossOut(t, Target(c, o, k));
            pcs := pcs[t := Count(o, k)];
          } else {
            pcs := pcs[t := Recheck];
          }
        case Count(o, k) =>
          counters[t] := counters[t] + 1;
          pcs := pcs[t := Cross(o, NextCursor(c, o, k))];
        case Recheck =>
          pcs := pcs[t := if globalIndex <= c.bound then Lock else Barrier(1, SpinEnd)];
      }
    }

    /** Writing a zero. */
    method CrossOut(ghost t: nat, x: nat)
      requires Valid() && x <= c.bound
      modifies this`history, numbers
      ensures Valid() && View() == Zero(old(View()), x)
    {
      history := history.(wasted := history.wasted + if numbers[x] == 0 then 1 else 0);
      numbers[x] := 0;
    }

    /** One access of the thread function. */
    method SieveFn(t: nat)
      requires Valid() && t < c.threads
      modifies this, numbers, counters
      ensures Valid() && View() == Step(c, old(View()), t)
    {
      match pcs[t] {
        case Barrier(_, _) => SBarrier(t);
        case ReadFlag => pcs := pcs[t := if beginFlag == RUNNING then ClearFlag else Done];
        case ClearFlag => beginFlag := 0; pcs := pcs[t := Done];
        case Done =>
        case _ => Compute(t);
      }
    }

    /** The threads run, interleaved as the schedule says. */
    method Execute(sched: seq<nat>)
      requires Valid() && Schedule(c, sched)
      modifies this, numbers, counters
      ensures Valid() && View() == Run(c, old(View()), sched)
    {
      for i := 0 to |sched|
        invariant Valid() && View() == Run(c, old(View()), sched[..i])
      {
        SieveFn(sched[i]);
        assert sched[..i + 1][..i] == sched[..i];
      }
      assert sched[..|sched|] == sched;
    }

    /** The exit routine: it refuses while the flag is up, and otherwise counts and prints. */
    method Exit() returns (r: Option<ExitReport>)
      requires Valid()
      ensures r.None? <==> beginFlag == RUNNING || barrierState <= 0
      ensures r.Some? ==>
        && r.value.printed == Printed(c, View())
        && r.value.primeNums == PrimeNums(c, View())
        && r.value.countSum == CountSum(View())
        && r.value.nonPrimes == (if c.algorithm == Eratosthenes then c.bound - 1 else 2 * c.bound + 1) - r.value.primeNums
        && r.value.excess == r.value.countSum -
             (if c.algorithm == Eratosthenes then r.value.nonPrimes else c.bound - r.value.primeNums)
    {
      if beginFlag == RUNNING || barrierState <= 0 {
        return None;
      }
      var printed := [];
      var primeNums := if c.algorithm == Sundaram then 1 else 0;
      for i := FirstIndex(c) to c.bound + 1
        invariant printed == Report(c, numbers[..], i)
        invariant primeNums == |printed| + if c.algorithm == Sundaram then 1 else 0
      {
        if numbers[i] != 0 {
          primeNums := primeNums + 1;
          printed := printed + [Shown(c, numbers[i])];
        }
      }
      var countSum := 0;
      for i := 0 to c.threads
        invariant countSum == Sum(counters[..i], Value())
      {
        countSum := countSum + counters[i];
        assert counters[..i + 1][..i] == counters[..i];
      }
      assert counters[..c.threads] == counters[..];
      var nonPrimes := (if c.algorithm == Eratosthenes then c.bound - 1 else 2 * c.bound + 1) - primeNums;
      var best := if c.algorithm == Eratosthenes then nonPrimes else c.bound - primeNums;
      r := Some(ExitReport(printed, primeNums, nonPrimes, countSum, countSum - best));
    }
  }

  /** A module's whole life: load, run under any schedule, unload.  When the exit routine reports,
      it reports exactly the primes, their number, and the work done.  The excess it prints is
      exact for Eratosthenes and always one too high for Sundaram, whose prime count already
      includes 2. */
  method LoadRunUnload(c: Config, sched: seq<nat>) returns (loaded: bool, r: Option<ExitReport>)
    requires Schedule(c, sched)
    ensures loaded <==> c.threads >= 1 && c.bound >= 2
    ensures !loaded ==> r.None?
    ensures loaded ==> (r.Some? <==> Run(c, Init(c), sched).beginFlag == 0)
    ensures loaded && AllDone(Run(c, Init(c), sched)) ==> r.Some?
    ensures loaded && r.Some? && c.algorithm == Eratosthenes ==>
      && r.value.printed == PrimeList(2, c.bound)
      && r.value.primeNums == PrimePi(c.bound) && r.value.nonPrimes == Composites(c.bound)
      && r.value.countSum >= PrimeWork(c.bound, c.bound + 1)
      && (c.threads == 1 ==> r.value.countSum == PrimeWork(c.bound, c.bound + 1))
      && r.value.excess == Run(c, Init(c), sched).history.wasted
    ensures loaded && r.Some? && c.algorithm == Sundaram ==>
      && [2] + r.value.printed == PrimeList(2, 2 * c.bound + 1)
      // the number 1 counts as a non-prime here
      && r.value.primeNums == PrimePi(2 * c.bound + 1) && r.value.nonPrimes == Composites(2 * c.bound + 1) + 1
      && r.value.countSum == |Pairs(c.bound, c.bound + 1)|
      && r.value.excess == Run(c, Init(c), sched).history.wasted + 1
  {
    loaded := c.threads >= MIN_THREADS && c.bound >= MIN_PRIME;
    r := None;
    if loaded {
      var m := new Sieve(c);
      m.Execute(sched);
      r := m.Exit();
      FlagTellsTheTruth(c, sched);
      PrimeOrComposite(c.bound);
      PrimeOrComposite(2 * c.bound + 1);
      if r.Some? {
        if c.algorithm == Eratosthenes { EratosthenesReportIsRight(c, sched); } else { SundaramReportIsRight(c, sched); }
      }
    }
  }

  /** The flag comes down with the run, and only when the results are final. */
  lemma FlagTellsTheTruth(c: Config, sched: seq<nat>)
    requires Accepted(c) && Schedule(c, sched)
    ensures var s := Run(c, Init(c), sched);
      && (s.beginFlag == RUNNING || s.beginFlag == 0)
      && (AllDone(s) ==> s.beginFlag != RUNNING)
      && (s.beginFlag != RUNNING ==> s.barrierState > 0 && AllPastCompute(s))
  {
    var s := Run(c, Init(c), sched);
    DoneTakesFlagDown(c, sched);
    FlagHolds(c, sched);
    if AllDone(s) { assert s.pcs[0].Done?; }
    if s.beginFlag != RUNNING {
      FlagDownMeansFinal(c, sched, []);
    }
  }

  lemma EratosthenesReportIsRight(c: Config, sched: seq<nat>)
    requires c.algorithm == Eratosthenes && Accepted(c) && Schedule(c, sched)
    requires AllPastCompute(Run(c, Init(c), sched))
    ensures var s := Run(c, Init(c), sched);
      && PrimeNums(c, s) == PrimePi(c.bound)
      && Printed(c, s) == PrimeList(2, c.bound)
      && CountSum(s) >= PrimeWork(c.bound, c.bound + 1)
      && (c.threads == 1 ==> CountSum(s) == PrimeWork(c.bound, c.bound + 1))
      && CountSum(s) - (c.bound - 1 - PrimeNums(c, s)) == s.history.wasted
  {
    PrimeNumsIsPi(c, sched);
    CrossOutsConserved(c, sched);
    EratosthenesPrints(c, sched);
    EratosthenesWorkLaw(c, sched);
    if c.threads == 1 { SoloWorkIsLeast(c, sched); }
  }

  lemma SundaramReportIsRight(c: Config, sched: seq<nat>)
    requires c.algorithm == Sundaram && Accepted(c) && Schedule(c, sched)
    requires AllPastCompute(Run(c, Init(c), sched))
    ensures var s := Run(c, Init(c), sched);
      && PrimeNums(c, s) == PrimePi(2 * c.bound + 1)
      && [2] + Printed(c, s) == PrimeList(2, 2 * c.bound + 1)
      && CountSum(s) == |Pairs(c.bound, c.bound + 1)|
      && CountSum(s) - (c.bound - PrimeNums(c, s)) == s.history.wasted + 1
  {
    PrimeNumsIsPi(c, sched);
    CrossOutsConserved(c, sched);
    SundaramPrints(c, sched);
    SundaramWorkFixed(c, sched);
  }
}
