/** The sieve kernel modules as a transition system.

    `threads` kernel threads each run  sbarrier(); compute(); sbarrier();  and then clear the
    running flag.  One step performs one shared-memory access of one thread, so every
    interleaving of the C code is a run of this machine.  The Eratosthenes and the Sundaram
    module share everything but the body of `compute`. */
module SieveMachine {

  datatype Algorithm = Eratosthenes | Sundaram

  /** The module parameters. */
  datatype Config = Config(algorithm: Algorithm, threads: nat, bound: nat)

  const MIN_THREADS: nat := 1
  const MIN_PRIME: nat := 2
  const MIN_NUM: nat := 1
  const RUNNING: int := 1

  /** The parameters the init routine accepts. */
  predicate Accepted(c: Config) {
    c.threads >= MIN_THREADS && c.bound >= MIN_PRIME
  }

  /** The initial value of the shared index. */
  function FirstIndex(c: Config): nat {
    if c.algorithm == Eratosthenes then MIN_PRIME else MIN_NUM
  }

  /** The accesses of one `sbarrier` call, in program order. */
  datatype Stage =
    | SpinEnd    // while end_guard != 0
    | Enter      // dec-and-test of start_guard
    | Announce   // barrier_state++, by the last thread in
    | Reopen     // start_guard := num_threads, by the last thread in
    | SpinStart  // while start_guard != num_threads
    | Leave      // add-return of end_guard
    | Clear      // end_guard := 0, by the last thread out

  /** The next access of a thread. */
  datatype Pc =
    | Barrier(round: nat, stage: Stage)
    | Lock                            // spin_lock
    | Scan                            // scan condition and read of numbers[global_index]
    | Skip                            // ++global_index in the scan
    | Take                            // original = global_index++
    | Unlock(own: nat)                // spin_unlock
    | Cross(own: nat, cursor: nat)    // loop condition and the write of a zero
    | Count(own: nat, cursor: nat)    // (*counter)++
    | Recheck                         // the unlocked read of global_index
    | ReadFlag                        // if begin_flag == 1
    | ClearFlag                       // begin_flag = 0
    | Done

  /** What a run has done so far.  No step reads these values. */
  datatype History = History(
    phase: nat,              // guard resets performed
    owner: map<nat, nat>,    // index within the bound -> the thread that took it
    late: set<nat>,          // threads that took an index above the bound
    wasted: nat)             // writes that found a zero already there

  datatype State = State(
    numbers: seq<int>,
    counters: seq<int>,
    globalIndex: nat,
    startGuard: int,
    endGuard: int,
    barrierState: int,
    beginFlag: int,
    holder: int,             // the thread holding index_lock, or NOBODY
    pcs: seq<Pc>,
    history: History)

  const NOBODY: int := -1

  // ----- the work belonging to one index -----

  /** Where the inner loop's variable starts. */
  function FirstCursor(c: Config, own: nat): nat {
    if c.algorithm == Eratosthenes then MIN_PRIME * own else MIN_NUM
  }

  /** The entry the inner loop writes. */
  function Target(c: Config, own: nat, cursor: nat): nat {
    if c.algorithm == Eratosthenes then cursor else cursor + own + 2 * cursor * own
  }

  /** The inner loop goes on: the Sundaram loop stops at i > j, or breaks above the bound. */
  predicate Crossing(c: Config, own: nat, cursor: nat) {
    && (c.algorithm == Sundaram ==> cursor <= own)
    && Target(c, own, cursor) <= c.bound
  }

  /** The inner loop's step. */
  function NextCursor(c: Config, own: nat, cursor: nat): nat {
    if c.algorithm == Eratosthenes then cursor + own else cursor + 1
  }

  /** What is left for the inner loop, as a bound on its iterations. */
  function Slack(c: Config, cursor: nat): nat {
    if cursor <= c.bound then c.bound + 1 - cursor else 0
  }

  lemma CrossingProgress(c: Config, own: nat, cursor: nat)
    requires 1 <= own && Crossing(c, own, cursor)
    ensures Slack(c, NextCursor(c, own, cursor)) < Slack(c, cursor)
  {
    assert 0 <= 2 * cursor * own;
  }

  // ----- states -----

  predicate WellFormed(c: Config, s: State) {
    && Accepted(c)
    && |s.numbers| == c.bound + 1
    && |s.counters| == |s.pcs| == c.threads
  }

  /** The state the init routine leaves behind when it spawns the threads. */
  function Init(c: Config): (s: State)
    requires Accepted(c)
  {
    State(
      seq(c.bound + 1, i => i),
      seq(c.threads, _ => 0),
      FirstIndex(c),
      c.threads,
      0,
      0,
      RUNNING,
      NOBODY,
      seq(c.threads, _ => Barrier(0, SpinEnd)),
      History(0, map[], {}, 0))
  }

  function Goto(s: State, t: nat, pc: Pc): State
    requires t < |s.pcs|
  {
    s.(pcs := s.pcs[t := pc])
  }

  /** Where a thread goes on when it returns from its first or second `sbarrier` call. */
  function AfterBarrier(round: nat): Pc {
    if round == 0 then Lock else ReadFlag
  }

  function Tick(s: State): State {
    s.(history := s.history.(phase := s.history.phase + 1))
  }

  /** One access of `sbarrier` by thread t. */
  function BarrierStep(c: Config, s: State, t: nat): State
    requires WellFormed(c, s) && t < c.threads && s.pcs[t].Barrier?
  {
    var r := s.pcs[t].round;
    match s.pcs[t].stage
    case SpinEnd =>
      if s.endGuard != 0 then s else Goto(s, t, Barrier(r, Enter))
    case Enter =>
      var g := s.startGuard - 1;
      Goto(s.(startGuard := g), t, Barrier(r, if g == 0 then Announce else SpinStart))
    case Announce =>
      Goto(s.(barrierState := s.barrierState + 1), t, Barrier(r, Reopen))
    case Reopen =>
      Goto(Tick(s).(startGuard := c.threads), t, Barrier(r, Leave))
    case SpinStart =>
      if s.startGuard != c.threads then s else Goto(s, t, Barrier(r, Leave))
    case Leave =>
      var g := s.endGuard + 1;
      Goto(s.(endGuard := g), t, if g == c.threads then Barrier(r, Clear) else AfterBarrier(r))
    case Clear =>
      Goto(Tick(s).(endGuard := 0), t, AfterBarrier(r))
  }

  /** Taking the shared index: the history notes who took it, or who came too late. */
  function TakeIndex(c: Config, s: State, t: nat): State {
    var o := s.globalIndex;
    var h := s.history;
    s.(globalIndex := o + 1,
       history := if o <= c.bound then h.(owner := h.owner[o := t]) else h.(late := h.late + {t}))
  }

  /** Writing a zero: the history notes whether there was one already. */
  function Zero(s: State, x: nat): State
    requires x < |s.numbers|
  {
    s.(numbers := s.numbers[x := 0],
       history := s.history.(wasted := s.history.wasted + if s.numbers[x] == 0 then 1 else 0))
  }

  /** One access of `compute` by thread t. */
  function ComputeStep(c: Config, s: State, t: nat): State
    requires WellFormed(c, s) && t < c.threads
    requires !s.pcs[t].Barrier? && !s.pcs[t].ReadFlag? && !s.pcs[t].ClearFlag? && !s.pcs[t].Done?
  {
    match s.pcs[t]
    case Lock =>
      if s.holder != NOBODY then s
      else Goto(s.(holder := t), t, if c.algorithm == Eratosthenes then Scan else Take)
    case Scan =>
      Goto(s, t, if s.globalIndex <= c.bound && s.numbers[s.globalIndex] == 0 then Skip else Take)
    case Skip =>
      Goto(s.(globalIndex := s.globalIndex + 1), t, Scan)
    case Take =>
      Goto(TakeIndex(c, s, t), t, Unlock(s.globalIndex))
    case Unlock(o) =>
      Goto(s.(holder := NOBODY), t,
           if c.algorithm == Eratosthenes && o > c.bound then Recheck else Cross(o, FirstCursor(c, o)))
    case Cross(o, k) =>
      if Crossing(c, o, k) then Goto(Zero(s, Target(c, o, k)), t, Count(o, k)) else Goto(s, t, Recheck)
    case Count(o, k) =>
      Goto(s.(counters := s.counters[t := s.counters[t] + 1]), t, Cross(o, NextCursor(c, o, k)))
    case Recheck =>
      Goto(s, t, if s.globalIndex <= c.bound then Lock else Barrier(1, SpinEnd))
  }

  /** One access of thread t; a spinning or finished thread leaves the state alone. */
  function Step(c: Config, s: State, t: nat): (s': State)
    requires WellFormed(c, s) && t < c.threads
    ensures WellFormed(c, s')
    ensures forall u :: 0 <= u < c.threads && u != t ==> s'.pcs[u] == s.pcs[u] && s'.counters[u] == s.counters[u]
  {
    match s.pcs[t]
    case Barrier(_, _) => BarrierStep(c, s, t)
    case ReadFlag => Goto(s, t, if s.beginFlag == RUNNING then ClearFlag else Done)
    case ClearFlag => Goto(s.(beginFlag := 0), t, Done)
    case Done => s
    case _ => ComputeStep(c, s, t)
  }

  /** A schedule names the thread that performs each step. */
  predicate Schedule(c: Config, sched: seq<nat>) {
    forall i :: 0 <= i < |sched| ==> sched[i] < c.threads
  }

  /** The state after a schedule; every state of every interleaving has this form. */
  function Run(c: Config, s: State, sched: seq<nat>): (s': State)
    requires WellFormed(c, s) && Schedule(c, sched)
    ensures WellFormed(c, s')
  {
    if sched == [] then s
    else Step(c, Run(c, s, sched[..|sched|-1]), sched[|sched|-1])
  }

  lemma {:induction false} RunConcat(c: Config, s: State, a: seq<nat>, b: seq<nat>)
    requires WellFormed(c, s) && Schedule(c, a) && Schedule(c, b)
    ensures Schedule(c, a + b)
    ensures Run(c, s, a + b) == Run(c, Run(c, s, a), b)
  {
    if b == [] {
      assert a + b == a;
    } else {
      var b' := b[..|b|-1];
      RunConcat(c, s, a, b');
      assert (a + b)[..|a + b|-1] == a + b';
    }
  }

  // ----- where a thread stands -----

  /** The thread holds the spinlock. */
  predicate Critical(pc: Pc) {
    pc.Scan? || pc.Skip? || pc.Take? || pc.Unlock?
  }

  /** The thread has left `compute`. */
  predicate PastCompute(pc: Pc) {
    (pc.Barrier? && pc.round >= 1) || pc.ReadFlag? || pc.ClearFlag? || pc.Done?
  }

  /** The thread is inside `compute`. */
  predicate Computing(pc: Pc) {
    !pc.Barrier? && !PastCompute(pc)
  }

  /** How often the thread has decremented start_guard. */
  function Entries(pc: Pc): nat {
    match pc
    case Barrier(r, st) => if st == SpinEnd || st == Enter then r else r + 1
    case ReadFlag => 2
    case ClearFlag => 2
    case Done => 2
    case _ => 1
  }

  /** How often the thread has incremented end_guard. */
  function Exits(pc: Pc): nat {
    match pc
    case Barrier(r, st) => if st == Clear then r + 1 else r
    case ReadFlag => 2
    case ClearFlag => 2
    case Done => 2
    case _ => 1
  }

  /** How many `sbarrier` calls the thread has returned from. */
  function Returns(pc: Pc): nat {
    match pc
    case Barrier(r, _) => r
    case ReadFlag => 2
    case ClearFlag => 2
    case Done => 2
    case _ => 1
  }

  predicate AllPastCompute(s: State) {
    forall t :: 0 <= t < |s.pcs| ==> PastCompute(s.pcs[t])
  }

  predicate AllDone(s: State) {
    forall t :: 0 <= t < |s.pcs| ==> s.pcs[t].Done?
  }
}
