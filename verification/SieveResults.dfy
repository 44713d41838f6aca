/** What a completed sieve run has computed, and what it cost, whatever the schedule. */
module SieveResults {
  import opened Sums
  import opened SieveMachine
  import opened SieveMemory
  import opened SieveWork
  import opened SieveProgress
  import opened Primes

  // ----- at rest -----

  /** The entries of a taken index are zero once its owner is not in the inner loop. */
  lemma ZeroUnlessWorking(c: Config, s: State, o: nat, x: nat)
    requires MemoryInv(c, s) && 1 <= o && o in s.history.owner && x in AllTargets(c, o) && x <= c.bound
    requires var pc := s.pcs[s.history.owner[o]]; !pc.Unlock? && !pc.Cross? && !pc.Count?
    ensures s.numbers[x] == 0
  {
    assert !Owes(c, s.pcs[s.history.owner[o]], o, x);
  }

  /** Once every thread is past `compute`, the zeroes are exactly the entries struck by a taken
      index, and every other entry is untouched. */
  lemma MemoryAtRest(c: Config, s: State)
    requires MemoryInv(c, s) && AllPastCompute(s)
    ensures s.globalIndex > c.bound
    ensures forall o :: o in s.history.owner ==> FirstIndex(c) <= o <= c.bound
    ensures forall x :: 1 <= x <= c.bound ==>
      if Struck(c, s.history.owner.Keys, x) then s.numbers[x] == 0 else s.numbers[x] == x
    ensures forall x :: FirstIndex(c) <= x <= c.bound ==>
      x in s.history.owner || (c.algorithm == Eratosthenes && s.numbers[x] == 0)
  {
    assert ThreadInv(c, s, 0);
    forall x | 1 <= x <= c.bound && Struck(c, s.history.owner.Keys, x) ensures s.numbers[x] == 0 {
      var o :| o in s.history.owner && 1 <= o && x in AllTargets(c, o);
      ZeroUnlessWorking(c, s, o, x);
    }
  }

  // ----- Eratosthenes -----

  /** The inner loop of o writes exactly the multiples of o from the cursor on. */
  lemma {:induction false} EratosthenesTargets(c: Config, o: nat, k: nat, x: nat)
    requires c.algorithm == Eratosthenes && 1 <= o && k % o == 0
    ensures x in Targets(c, o, k) <==> k <= x <= c.bound && x % o == 0
    decreases Slack(c, k)
  {
    if k <= c.bound {
      MultipleStep(o, k);
      EratosthenesTargets(c, o, k + o, x);
      if k < x && x % o == 0 {
        NextMultiple(o, k, x);
      }
    }
  }

  lemma EratosthenesStrikes(c: Config, o: nat, x: nat)
    requires c.algorithm == Eratosthenes && 1 <= o
    ensures x in AllTargets(c, o) <==> 2 * o <= x <= c.bound && x % o == 0
  {
    ProductDivides(2 * o, o, 2);
    EratosthenesTargets(c, o, 2 * o, x);
  }

  lemma StruckIsComposite(c: Config, taken: set<nat>, x: nat)
    requires c.algorithm == Eratosthenes && Struck(c, taken, x)
    requires forall o :: o in taken ==> 2 <= o
    ensures !Prime(x)
  {
    var o :| o in taken && 1 <= o && x in AllTargets(c, o);
    EratosthenesStrikes(c, o, x);
    DivisorMakesComposite(x, o);
  }

  /** Every prime within the bound is taken, whatever composites are taken besides. */
  lemma PrimesTaken(c: Config, s: State, p: nat)
    requires MemoryInv(c, s) && c.algorithm == Eratosthenes
    requires Prime(p) && p <= c.bound && p < s.globalIndex
    ensures p in s.history.owner && s.numbers[p] == p
  {
    if Struck(c, s.history.owner.Keys, p) {
      StruckIsComposite(c, s.history.owner.Keys, p);
    }
  }

  lemma EratosthenesAtRest(c: Config, s: State, x: nat)
    requires MemoryInv(c, s) && AllPastCompute(s) && c.algorithm == Eratosthenes
    requires 2 <= x <= c.bound
    ensures s.numbers[x] == if Prime(x) then x else 0
  {
    MemoryAtRest(c, s);
    if Prime(x) {
      PrimesTaken(c, s, x);
    } else {
      var p := ProperPrimeDivisor(x);
      PrimesTaken(c, s, p);
      EratosthenesStrikes(c, p, x);
      assert Struck(c, s.history.owner.Keys, x);
    }
  }

  /** The concurrent sieve of Eratosthenes finds exactly the primes, under every schedule. */
  lemma EratosthenesFindsPrimes(c: Config, sched: seq<nat>)
    requires c.algorithm == Eratosthenes && Accepted(c) && Schedule(c, sched)
    requires AllPastCompute(Run(c, Init(c), sched))
    ensures forall x: nat :: 2 <= x <= c.bound ==>
      Run(c, Init(c), sched).numbers[x] == if Prime(x) then x else 0
  {
    MemoryHolds(c, sched);
    forall x: nat | 2 <= x <= c.bound
      ensures Run(c, Init(c), sched).numbers[x] == if Prime(x) then x else 0
    {
      EratosthenesAtRest(c, Run(c, Init(c), sched), x);
    }
  }

  // ----- Sundaram -----

  lemma TargetMonotone(c: Config, j: nat, i: nat, i': nat)
    requires c.algorithm == Sundaram && i <= i'
    ensures Target(c, j, i) <= Target(c, j, i')
  {
    assert 2 * i' * j == 2 * i * j + 2 * (i' - i) * j;
    assert 0 <= 2 * (i' - i) * j;
  }

  /** The inner loop of j writes i + j + 2ij for every i up to j that stays within the bound:
      stopping at the first index above the bound loses nothing. */
  lemma {:induction false} SundaramTargets(c: Config, j: nat, i: nat, m: nat)
    requires c.algorithm == Sundaram && 1 <= j && i <= m <= j && Target(c, j, m) <= c.bound
    ensures Target(c, j, m) in Targets(c, j, i)
    decreases m - i
  {
    TargetMonotone(c, j, i, m);
    if i < m {
      SundaramTargets(c, j, i + 1, m);
    }
  }

  lemma {:induction false} SundaramOnly(c: Config, j: nat, i: nat, x: nat) returns (m: nat)
    requires c.algorithm == Sundaram && 1 <= j && x in Targets(c, j, i)
    ensures i <= m <= j && x == m + j + 2 * m * j
    decreases Slack(c, i)
  {
    CrossingProgress(c, j, i);
    if x == Target(c, j, i) {
      m := i;
    } else {
      m := SundaramOnly(c, j, i + 1, x);
    }
  }

  lemma SundaramAtRest(c: Config, s: State, x: nat)
    requires MemoryInv(c, s) && AllPastCompute(s) && c.algorithm == Sundaram
    requires 1 <= x <= c.bound
    ensures s.numbers[x] == if Prime(2 * x + 1) then x else 0
  {
    MemoryAtRest(c, s);
    if Prime(2 * x + 1) {
      if Struck(c, s.history.owner.Keys, x) {
        var j :| j in s.history.owner && 1 <= j && x in AllTargets(c, j);
        var m := SundaramOnly(c, j, 1, x);
        SundaramSound(m, j, x);
      }
    } else {
      var i, j := SundaramComplete(x);
      assert j <= x by { assert 0 <= 2 * i * j; }
      SundaramTargets(c, j, 1, i);
      assert j in s.history.owner;
      assert Struck(c, s.history.owner.Keys, x);
    }
  }

  /** The concurrent sieve of Sundaram keeps k exactly when 2k+1 is prime, under every schedule. */
  lemma SundaramFindsOddPrimes(c: Config, sched: seq<nat>)
    requires c.algorithm == Sundaram && Accepted(c) && Schedule(c, sched)
    requires AllPastCompute(Run(c, Init(c), sched))
    ensures forall k: nat :: 1 <= k <= c.bound ==>
      Run(c, Init(c), sched).numbers[k] == if Prime(2 * k + 1) then k else 0
  {
    MemoryHolds(c, sched);
    forall k: nat | 1 <= k <= c.bound
      ensures Run(c, Init(c), sched).numbers[k] == if Prime(2 * k + 1) then k else 0
    {
      SundaramAtRest(c, Run(c, Init(c), sched), k);
    }
  }

  // ----- the report -----

  /** The number an entry stands for in the report. */
  function Shown(c: Config, v: int): int {
    if c.algorithm == Eratosthenes then v else 2 * v + 1
  }

  /** The numbers the exit routine prints for the entries from the first index to below hi. */
  function Report(c: Config, numbers: seq<int>, hi: nat): seq<int>
    requires hi <= |numbers|
  {
    if hi <= FirstIndex(c) then []
    else Report(c, numbers, hi - 1) + if numbers[hi - 1] != 0 then [Shown(c, numbers[hi - 1])] else []
  }

  /** The whole report. */
  function Printed(c: Config, s: State): seq<int>
    requires WellFormed(c, s)
  {
    Report(c, s.numbers, c.bound + 1)
  }

  /** The prime count the exit routine prints: Sundaram accounts for 2 on its own. */
  function PrimeNums(c: Config, s: State): nat
    requires WellFormed(c, s)
  {
    |Printed(c, s)| + if c.algorithm == Sundaram then 1 else 0
  }

  lemma {:induction false} ReportAndZeroes(c: Config, numbers: seq<int>, hi: nat)
    requires FirstIndex(c) <= hi <= |numbers|
    ensures |Report(c, numbers, hi)| + Sum(numbers[FirstIndex(c)..hi], IsZero()) == hi - FirstIndex(c)
  {
    if hi > FirstIndex(c) {
      ReportAndZeroes(c, numbers, hi - 1);
      SumSlice(numbers, FirstIndex(c), hi, IsZero());
    }
  }

  lemma {:induction false} EratosthenesReport(c: Config, numbers: seq<int>, hi: nat)
    requires c.algorithm == Eratosthenes && 2 <= hi <= |numbers|
    requires forall x: nat :: 2 <= x < hi ==> numbers[x] == if Prime(x) then x else 0
    ensures Report(c, numbers, hi) == PrimeList(2, hi - 1)
  {
    if hi > 2 {
      EratosthenesReport(c, numbers, hi - 1);
    }
  }

  lemma {:induction false} SundaramReport(c: Config, numbers: seq<int>, hi: nat)
    requires c.algorithm == Sundaram && 1 <= hi <= |numbers|
    requires forall k: nat :: 1 <= k < hi ==> numbers[k] == if Prime(2 * k + 1) then k else 0
    ensures Report(c, numbers, hi) == PrimeList(3, 2 * hi - 1)
  {
    if hi > 1 {
      SundaramReport(c, numbers, hi - 1);
      var k := hi - 1;
      assert PrimeList(3, 2 * k + 1) == PrimeList(3, 2 * k) + if Prime(2 * k + 1) then [2 * k + 1] else [];
      if k > 1 { EvenNotPrime(2 * k); }
      assert PrimeList(3, 2 * k) == PrimeList(3, 2 * k - 1);
    }
  }

  /** The printed prime count is pi(n), respectively pi(2n+1). */
  lemma PrimeNumsIsPi(c: Config, sched: seq<nat>)
    requires Accepted(c) && Schedule(c, sched)
    requires AllPastCompute(Run(c, Init(c), sched))
    ensures PrimeNums(c, Run(c, Init(c), sched)) ==
      PrimePi(if c.algorithm == Eratosthenes then c.bound else 2 * c.bound + 1)
  {
    hide Run, Printed;
    if c.algorithm == Eratosthenes {
      EratosthenesPrints(c, sched);
      PrimeListCounts(c.bound);
    } else {
      SundaramPrints(c, sched);
      PrimeListCounts(2 * c.bound + 1);
    }
  }

  /** The two modules agree: a Sundaram run at n prints the odd primes an Eratosthenes run at
      2n+1 prints, whatever the thread counts and schedules. */
  lemma SievesAgree(e: Config, se: seq<nat>, d: Config, sd: seq<nat>)
    requires e.algorithm == Eratosthenes && d.algorithm == Sundaram && e.bound == 2 * d.bound + 1
    requires Accepted(e) && Schedule(e, se) && AllPastCompute(Run(e, Init(e), se))
    requires Accepted(d) && Schedule(d, sd) && AllPastCompute(Run(d, Init(d), sd))
    ensures Printed(e, Run(e, Init(e), se)) == [2] + Printed(d, Run(d, Init(d), sd))
    ensures PrimeNums(e, Run(e, Init(e), se)) == PrimeNums(d, Run(d, Init(d), sd))
  {
    hide Run, Printed;
    EratosthenesPrints(e, se);
    SundaramPrints(d, sd);
  }

  lemma EratosthenesPrints(c: Config, sched: seq<nat>)
    requires c.algorithm == Eratosthenes && Accepted(c) && Schedule(c, sched)
    requires AllPastCompute(Run(c, Init(c), sched))
    ensures Printed(c, Run(c, Init(c), sched)) == PrimeList(2, c.bound)
  {
    EratosthenesFindsPrimes(c, sched);
    EratosthenesReport(c, Run(c, Init(c), sched).numbers, c.bound + 1);
  }

  lemma SundaramPrints(c: Config, sched: seq<nat>)
    requires c.algorithm == Sundaram && Accepted(c) && Schedule(c, sched)
    requires AllPastCompute(Run(c, Init(c), sched))
    ensures [2] + Printed(c, Run(c, Init(c), sched)) == PrimeList(2, 2 * c.bound + 1)
  {
    SundaramFindsOddPrimes(c, sched);
    SundaramReport(c, Run(c, Init(c), sched).numbers, c.bound + 1);
    PrimeListSplit(2 * c.bound + 1);
  }

  // ----- conservation of cross-outs -----

  /** The excess the exit routine means to print: all cross-outs less the crossed-out entries. */
  lemma CrossOutsConserved(c: Config, sched: seq<nat>)
    requires Accepted(c) && Schedule(c, sched)
    requires AllPastCompute(Run(c, Init(c), sched))
    ensures var s := Run(c, Init(c), sched);
      && (c.algorithm == Eratosthenes ==>
            CountSum(s) - (c.bound - 1 - PrimeNums(c, s)) == s.history.wasted)
      && (c.algorithm == Sundaram ==>
            CountSum(s) - (c.bound - PrimeNums(c, s) + 1) == s.history.wasted)
  {
    var s := Run(c, Init(c), sched);
    WorkAtRest(c, sched);
    PrintedAndZeroes(c, s);
  }

  lemma PrintedAndZeroes(c: Config, s: State)
    requires WellFormed(c, s)
    ensures |Printed(c, s)| + Zeroes(c, s) == c.bound + 1 - FirstIndex(c)
  {
    ReportAndZeroes(c, s.numbers, c.bound + 1);
    assert s.numbers[FirstIndex(c)..c.bound + 1] == s.numbers[FirstIndex(c)..];
  }

  // ----- the work of Eratosthenes -----

  lemma {:induction false} EratosthenesTodo(c: Config, o: nat, m: nat)
    requires c.algorithm == Eratosthenes && 1 <= o && 1 <= m
    ensures Todo(c, o, m * o) == if m <= c.bound / o then c.bound / o - m + 1 else 0
    decreases Slack(c, m * o)
  {
    var q := c.bound / o;
    assert c.bound == o * q + c.bound % o;
    if m <= q {
      assert o * (q - m) == o * q - m * o;
      MultipleSize(o, q - m);
      assert (m + 1) * o == m * o + o;
      EratosthenesTodo(c, o, m + 1);
    } else {
      assert o * (m - q) == m * o - o * q;
      MultipleSize(o, m - q);
    }
  }

  /** Taking o costs bound/o - 1 cross-outs. */
  lemma EratosthenesCost(c: Config, o: nat)
    requires c.algorithm == Eratosthenes && 1 <= o <= c.bound
    ensures Cost(c, o) == c.bound / o - 1
  {
    EratosthenesTodo(c, o, 2);
    ProductDivides(c.bound - c.bound % o, o, c.bound / o);
    MultipleSize(o, c.bound / o);
  }

  /** The sum of bound/o - 1 over the taken indices o below hi. */
  function MultiplesWork(bound: nat, taken: set<nat>, hi: nat): int {
    if hi <= 2 then 0
    else MultiplesWork(bound, taken, hi - 1) + if hi - 1 in taken then bound / (hi - 1) - 1 else 0
  }

  /** The same sum over the primes. */
  function PrimeWork(bound: nat, hi: nat): int {
    if hi <= 2 then 0
    else PrimeWork(bound, hi - 1) + if Prime(hi - 1) then bound / (hi - 1) - 1 else 0
  }

  lemma {:induction false} WorkIsMultiples(c: Config, taken: set<nat>, hi: nat)
    requires c.algorithm == Eratosthenes && hi <= c.bound + 1
    requires forall o :: o in taken ==> 2 <= o
    ensures Work(c, taken, hi) == MultiplesWork(c.bound, taken, hi)
  {
    if hi > 0 {
      WorkIsMultiples(c, taken, hi - 1);
      if hi > 2 { EratosthenesCost(c, hi - 1); }
    }
  }

  lemma QuotientAtLeastOne(b: nat, o: nat)
    requires 1 <= o <= b
    ensures 1 <= b / o
  {
    MultipleSize(o, b / o);
  }

  lemma {:induction false} PrimesCostLeast(bound: nat, taken: set<nat>, hi: nat)
    requires hi <= bound + 1
    requires forall p: nat :: Prime(p) && p < hi ==> p in taken
    ensures PrimeWork(bound, hi) <= MultiplesWork(bound, taken, hi)
    ensures (forall o: nat :: 2 <= o < hi && o in taken ==> Prime(o)) ==>
              PrimeWork(bound, hi) == MultiplesWork(bound, taken, hi)
  {
    if hi > 2 {
      PrimesCostLeast(bound, taken, hi - 1);
      QuotientAtLeastOne(bound, hi - 1);
    }
  }

  /** The work law: the counters add up to bound/o - 1 over the taken indices, each taken once;
      these include all primes, so no run does less than the work on the primes alone. */
  lemma EratosthenesWorkLaw(c: Config, sched: seq<nat>)
    requires c.algorithm == Eratosthenes && Accepted(c) && Schedule(c, sched)
    requires AllPastCompute(Run(c, Init(c), sched))
    ensures var s := Run(c, Init(c), sched);
      var taken := s.history.owner.Keys;
      && (forall o :: o in taken ==> 2 <= o <= c.bound)
      && (forall p: nat :: Prime(p) && p <= c.bound ==> p in taken)
      && CountSum(s) == MultiplesWork(c.bound, taken, c.bound + 1)
      && CountSum(s) >= PrimeWork(c.bound, c.bound + 1)
  {
    var s := Run(c, Init(c), sched);
    MemoryHolds(c, sched);
    MemoryAtRest(c, s);
    forall p: nat | Prime(p) && p <= c.bound ensures p in s.history.owner.Keys {
      PrimesTaken(c, s, p);
    }
    WorkAtRest(c, sched);
    WorkIsMultiples(c, s.history.owner.Keys, c.bound + 1);
    PrimesCostLeast(c.bound, s.history.owner.Keys, c.bound + 1);
  }

  // ----- one thread alone -----

  /** A single thread only takes primes. */
  ghost predicate SoloInv(c: Config, s: State) {
    && (forall o :: o in s.history.owner ==> Prime(o))
    && (forall t :: 0 <= t < |s.pcs| && s.pcs[t].Take? && s.globalIndex <= c.bound ==> Prime(s.globalIndex))
  }

  /** Why a thread may pick a composite: when a scan stops at x, every prime p below x that divides x
      is in the hands of another thread, whose inner loop has the write of x still before it. */
  lemma ScanStopsAt(c: Config, s: State, t: nat, p: nat)
    requires c.algorithm == Eratosthenes && MemoryInv(c, s) && t < c.threads
    requires s.pcs[t].Scan? && s.globalIndex <= c.bound && s.numbers[s.globalIndex] != 0
    requires Prime(p) && p < s.globalIndex && s.globalIndex % p == 0
    ensures p in s.history.owner && s.history.owner[p] < c.threads && s.history.owner[p] != t
    ensures Owes(c, s.pcs[s.history.owner[p]], p, s.globalIndex)
  {
    var x := s.globalIndex;
    PrimesTaken(c, s, p);
    assert p % p == 0;
    NextMultiple(p, p, x);
    EratosthenesStrikes(c, p, x);
  }

  lemma SoloScan(c: Config, s: State)
    requires c.algorithm == Eratosthenes && c.threads == 1 && MemoryInv(c, s)
    requires s.pcs[0].Scan? && s.globalIndex <= c.bound && s.numbers[s.globalIndex] != 0
    ensures Prime(s.globalIndex)
  {
    if !Prime(s.globalIndex) {
      var p := ProperPrimeDivisor(s.globalIndex);
      ScanStopsAt(c, s, 0, p);
    }
  }

  /** What a step of the only thread does to what has been taken. */
  lemma SoloTakes(c: Config, s: State)
    requires c.algorithm == Eratosthenes && c.threads == 1 && WellFormed(c, s)
    ensures var s', x := Step(c, s, 0), s.globalIndex;
      && s'.history.owner == (if s.pcs[0].Take? && x <= c.bound then s.history.owner[x := 0] else s.history.owner)
      && (s'.pcs[0].Take? && !s.pcs[0].Take? ==>
            s.pcs[0].Scan? && s'.globalIndex == x && (x <= c.bound ==> s.numbers[x] != 0))
      && (s.pcs[0].Take? ==> !s'.pcs[0].Take?)
  {
    hide Crossing, Target, FirstCursor;
  }

  lemma SoloStep(c: Config, s: State, t: nat)
    requires c.algorithm == Eratosthenes && c.threads == 1 && MemoryInv(c, s) && SoloInv(c, s) && t < c.threads
    ensures SoloInv(c, Step(c, s, t))
  {
    SoloTakes(c, s);
    if s.pcs[0].Scan? && s.globalIndex <= c.bound && s.numbers[s.globalIndex] != 0 {
      SoloScan(c, s);
    }
    hide Step, MemoryInv, Prime;
  }

  lemma {:induction false} SoloHolds(c: Config, sched: seq<nat>)
    requires c.algorithm == Eratosthenes && Accepted(c) && c.threads == 1 && Schedule(c, sched)
    ensures SoloInv(c, Run(c, Init(c), sched))
  {
    if sched != [] {
      SoloHolds(c, sched[..|sched|-1]);
      MemoryHolds(c, sched[..|sched|-1]);
      SoloStep(c, Run(c, Init(c), sched[..|sched|-1]), sched[|sched|-1]);
    }
  }

  /** A single thread does exactly the work on the primes: the least any run can do. */
  lemma SoloWorkIsLeast(c: Config, sched: seq<nat>)
    requires c.algorithm == Eratosthenes && Accepted(c) && c.threads == 1 && Schedule(c, sched)
    requires AllPastCompute(Run(c, Init(c), sched))
    ensures CountSum(Run(c, Init(c), sched)) == PrimeWork(c.bound, c.bound + 1)
  {
    EratosthenesWorkLaw(c, sched);
    SoloHolds(c, sched);
    PrimesCostLeast(c.bound, Run(c, Init(c), sched).history.owner.Keys, c.bound + 1);
  }

  // ----- the work of Sundaram -----

  /** The pairs 1 <= i <= j with i + j + 2ij within the bound, for j below hi. */
  function Pairs(bound: nat, hi: nat): set<(nat, nat)> {
    set i: nat, j: nat | 1 <= i <= bound && 1 <= j < hi && i <= j && i + j + 2 * i * j <= bound :: (i, j)
  }

  /** The pairs with the given j and i from `from` on. */
  function Column(bound: nat, j: nat, from: nat): set<(nat, nat)> {
    set i: nat | 1 <= i <= bound && from <= i <= j && i + j + 2 * i * j <= bound :: (i, j)
  }

  lemma ColumnHead(c: Config, j: nat, i: nat)
    requires c.algorithm == Sundaram && 1 <= i && Crossing(c, j, i)
    ensures |Column(c.bound, j, i)| == 1 + |Column(c.bound, j, i + 1)|
  {
    assert i <= c.bound by { assert 0 <= 2 * i * j; }
    assert (i, j) !in Column(c.bound, j, i + 1);
    assert Column(c.bound, j, i) == {(i, j)} + Column(c.bound, j, i + 1);
  }

  lemma ColumnEnd(c: Config, j: nat, i: nat)
    requires c.algorithm == Sundaram && 1 <= i && !Crossing(c, j, i)
    ensures Column(c.bound, j, i) == {}
  {
    forall m: nat | i <= m <= j ensures m + j + 2 * m * j > c.bound {
      TargetMonotone(c, j, i, m);
    }
  }

  lemma {:induction false} SundaramTodo(c: Config, j: nat, i: nat)
    requires c.algorithm == Sundaram && 1 <= j && 1 <= i
    ensures Todo(c, j, i) == |Column(c.bound, j, i)|
    decreases Slack(c, i)
  {
    if Crossing(c, j, i) {
      CrossingProgress(c, j, i);
      SundaramTodo(c, j, i + 1);
      ColumnHead(c, j, i);
    } else {
      ColumnEnd(c, j, i);
    }
  }

  lemma PairsByColumn(bound: nat, j: nat)
    requires 1 <= j
    ensures |Pairs(bound, j + 1)| == |Pairs(bound, j)| + |Column(bound, j, 1)|
  {
    assert Pairs(bound, j + 1) == Pairs(bound, j) + Column(bound, j, 1);
    assert Pairs(bound, j) !! Column(bound, j, 1);
  }

  lemma {:induction false} SundaramWork(c: Config, taken: set<nat>, hi: nat)
    requires c.algorithm == Sundaram && forall j :: j in taken <==> 1 <= j <= c.bound
    requires 1 <= hi <= c.bound + 1
    ensures Work(c, taken, hi) == |Pairs(c.bound, hi)|
  {
    if hi == 1 {
      assert Pairs(c.bound, 1) == {};
      assert Work(c, taken, 0) == 0;
    } else {
      SundaramWork(c, taken, hi - 1);
      SundaramTodo(c, hi - 1, 1);
      PairsByColumn(c.bound, hi - 1);
    }
  }

  lemma SundaramTakesAll(c: Config, s: State)
    requires c.algorithm == Sundaram && MemoryInv(c, s) && AllPastCompute(s)
    ensures forall j :: j in s.history.owner.Keys <==> 1 <= j <= c.bound
  {
    MemoryAtRest(c, s);
  }

  /** Sundaram's work does not depend on the threads or the schedule: it is one cross-out for
      every pair 1 <= i <= j with i + j + 2ij within the bound. */
  lemma SundaramWorkFixed(c: Config, sched: seq<nat>)
    requires c.algorithm == Sundaram && Accepted(c) && Schedule(c, sched)
    requires AllPastCompute(Run(c, Init(c), sched))
    ensures CountSum(Run(c, Init(c), sched)) == |Pairs(c.bound, c.bound + 1)|
  {
    hide Step, MemoryInv, Pairs, Work;
    var s := Run(c, Init(c), sched);
    MemoryHolds(c, sched);
    SundaramTakesAll(c, s);
    WorkAtRest(c, sched);
    SundaramWork(c, s.history.owner.Keys, c.bound + 1);
  }

  // ----- arithmetic -----

  /** The largest value the inner loop's index expression takes. */
  function IndexLimit(c: Config): nat {
    if c.algorithm == Eratosthenes then 2 * c.bound else 3 * (c.bound + c.threads) + 1
  }

  ghost predicate CursorOk(c: Config, pc: Pc) {
    match pc
    case Cross(o, k) => Target(c, o, k) <= IndexLimit(c)
    case Count(o, k) => o <= c.bound && Target(c, o, k) <= c.bound
    case _ => true
  }

  ghost predicate CursorInv(c: Config, s: State) {
    forall t :: 0 <= t < |s.pcs| ==> CursorOk(c, s.pcs[t])
  }

  lemma NextTarget(c: Config, o: nat, k: nat)
    ensures Target(c, o, NextCursor(c, o, k)) <= Target(c, o, k) + 1 + 2 * o
  {
    assert 2 * (k + 1) * o == 2 * k * o + 2 * o;
  }

  lemma FirstTarget(c: Config, o: nat)
    requires o <= c.bound + c.threads && (c.algorithm == Eratosthenes ==> o <= c.bound)
    ensures Target(c, o, FirstCursor(c, o)) <= IndexLimit(c)
  {}

  lemma CursorMoves(c: Config, s: State, t: nat)
    requires WellFormed(c, s) && t < c.threads && CursorOk(c, s.pcs[t])
    requires s.pcs[t].Unlock? ==> s.pcs[t].own <= c.bound + c.threads
    requires s.pcs[t].Cross? ==> (c.algorithm == Eratosthenes ==> s.pcs[t].own <= c.bound)
    ensures CursorOk(c, Step(c, s, t).pcs[t])
  {
    match s.pcs[t] {
      case Unlock(o) =>
        if c.algorithm == Sundaram || o <= c.bound { FirstTarget(c, o); }
      case Count(o, k) =>
        NextTarget(c, o, k);
        assert c.algorithm == Eratosthenes ==> Target(c, o, NextCursor(c, o, k)) == k + o;
      case Cross(o, k) =>
        if Crossing(c, o, k) { CrossingInBound(c, o, k); }
      case _ =>
    }
  }

  lemma CursorStep(c: Config, s: State, t: nat)
    requires MemoryInv(c, s) && CursorInv(c, s) && t < c.threads
    ensures CursorInv(c, Step(c, s, t))
  {
    assert ThreadInv(c, s, t);
    IndexBounded(c, s);
    CursorMoves(c, s, t);
    forall u | 0 <= u < c.threads ensures CursorOk(c, Step(c, s, t).pcs[u]) {
      assert u != t ==> Step(c, s, t).pcs[u] == s.pcs[u];
    }
  }

  lemma {:induction false} CursorHolds(c: Config, sched: seq<nat>)
    requires Accepted(c) && Schedule(c, sched)
    ensures CursorInv(c, Run(c, Init(c), sched))
  {
    if sched != [] {
      CursorHolds(c, sched[..|sched|-1]);
      MemoryHolds(c, sched[..|sched|-1]);
      CursorStep(c, Run(c, Init(c), sched[..|sched|-1]), sched[|sched|-1]);
    }
  }

  /** No int overflows if the limits fit: the shared index stays within bound + threads + 1, and
      the inner loops' index within 2*bound, respectively 3*(bound + threads) + 1. */
  lemma IntsFit(c: Config, sched: seq<nat>, max: nat)
    requires Accepted(c) && Schedule(c, sched)
    requires c.bound + c.threads + 1 <= max && IndexLimit(c) <= max
    ensures var s := Run(c, Init(c), sched);
      && s.globalIndex <= max
      && forall t :: 0 <= t < c.threads && s.pcs[t].Cross? ==> Target(c, s.pcs[t].own, s.pcs[t].cursor) <= max
  {
    OvershootExact(c, sched);
    CursorHolds(c, sched);
  }
}
