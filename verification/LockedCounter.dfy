/** EX04-03 and EX04-04: any number of threads that count on g_count under one mutex.

  Both programs refine a counter with one atomic action. In EX04-03 each thread counts its own
  number of times; in EX04-04 all threads count until g_count shows the bound.
 */
module LockedCounter {
  import opened Options
  import opened Sums
  import opened SharedCounter
  import Runs

  // What one program has in common: Some(max) if its threads count until max, None if each
  // has its own number of iterations.
  type Goal = Option<int>

  predicate InCriticalSection(pc: Pc) {
    pc == Check || pc == Load || pc.Store? || pc == Count || pc == Signal || pc == Post || pc == Unlock || pc == Leave
  }

  ghost predicate BoundOk(s: State, goal: Goal, th: Thread) {
    match th.code.bound
    case Times(n) =>
      && goal.None?
      && th.count <= n
      && (th.pc == Lock || th.pc == Load || th.pc.Store? || th.pc == Count ==> th.count < n)
      && (th.pc == Exited ==> th.count == n)
    case Until(max) =>
      && goal == Some(max)
      && (0 <= max ==> s.gCount <= max)
      && (th.pc == Load || th.pc.Store? ==> s.gCount != max)
      && (th.pc == Leave || th.pc == Exited ==> s.gCount == max)
  }

  ghost predicate ThreadOk(s: State, goal: Goal, t: nat)
    requires t < |s.threads|
  {
    var th := s.threads[t];
    && th.code.locks
    && (InCriticalSection(th.pc) <==> s.owner == Some(t))
    && (th.pc.Store? ==> th.pc.temp == s.gCount)
    && (th.pc == Wait ==> th.code.waits && th.count == 0)
    && (th.pc == Check || th.pc == Leave ==> th.code.bound.Until?)
    && (th.pc == Signal || th.pc == Post ==> th.code.postAt.Some?)
    && BoundOk(s, goal, th)
  }

  // Mutual exclusion, no lost update, and each thread within its bound.
  ghost predicate LockInv(s: State, goal: Goal) {
    && s.gCount == TotalDone(s)
    && 0 <= s.gCount
    && (s.owner.Some? ==> s.owner.value < |s.threads|)
    && forall t :: 0 <= t < |s.threads| ==> ThreadOk(s, goal, t)
  }

  ghost predicate CodesFor(codes: seq<Code>, goal: Goal) {
    forall i :: 0 <= i < |codes| ==>
      codes[i].locks && match goal case None => codes[i].bound.Times? case Some(max) => codes[i].bound == Until(max)
  }

  lemma InitKeepsLock(codes: seq<Code>, goal: Goal)
    requires CodesFor(codes, goal)
    ensures LockInv(Init(codes), goal)
  {
    SumConstant(Done, Init(codes).threads, 0);
    forall t | 0 <= t < |codes|
      ensures ThreadOk(Init(codes), goal, t)
    {
    }
  }

  lemma ActorOk(s: State, goal: Goal, t: nat)
    requires LockInv(s, goal) && Enabled(s, t)
    ensures t < |Step(s, t).threads| && ThreadOk(Step(s, t), goal, t)
  {
    assert ThreadOk(s, goal, t);
  }

  lemma OthersOk(s: State, goal: Goal, t: nat, u: nat)
    requires LockInv(s, goal) && Enabled(s, t) && u < |s.threads| && u != t
    ensures u < |Step(s, t).threads| && ThreadOk(Step(s, t), goal, u)
  {
    assert ThreadOk(s, goal, t) && ThreadOk(s, goal, u);
  }

  lemma StepKeepsLock(s: State, goal: Goal, t: nat)
    requires LockInv(s, goal) && Enabled(s, t)
    ensures LockInv(Step(s, t), goal)
  {
    var s' := Step(s, t);
    StepSums(s, t);
    assert ThreadOk(s, goal, t);
    hide BoundOk;
    forall u | 0 <= u < |s'.threads|
      ensures ThreadOk(s', goal, u)
    {
      if u == t {
        ActorOk(s, goal, t);
      } else {
        OthersOk(s, goal, t, u);
      }
    }
  }

  lemma LockInductive(goal: Goal)
    ensures Runs.Inductive(Next, (x: State) => LockInv(x, goal))
  {
    forall x: State, x': State | LockInv(x, goal) && Next(x, x')
      ensures LockInv(x', goal)
    {
      var t: nat :| Enabled(x, t) && x' == Step(x, t);
      StepKeepsLock(x, goal, t);
    }
  }

  ghost predicate SameCodes(codes: seq<Code>, s: State) {
    |s.threads| == |codes| && forall i :: 0 <= i < |codes| ==> s.threads[i].code == codes[i]
  }

  lemma CodesReachable(codes: seq<Code>, s: State)
    requires Runs.Reachable(Next, Init(codes), s)
    ensures SameCodes(codes, s)
  {
    Runs.Kept(Next, (x: State) => SameCodes(codes, x), Init(codes), s);
  }

  lemma LockInvReachable(codes: seq<Code>, goal: Goal, s: State)
    requires CodesFor(codes, goal) && Runs.Reachable(Next, Init(codes), s)
    ensures LockInv(s, goal) && SameCodes(codes, s)
  {
    hide LockInv;
    CodesReachable(codes, s);
    InitKeepsLock(codes, goal);
    LockInductive(goal);
    Runs.Kept(Next, (x: State) => LockInv(x, goal), Init(codes), s);
  }

  // ----- Refinement to an atomic counter -----

  datatype Atomic = Atomic(total: int, counts: seq<int>, bounds: seq<Bound>)

  // The only action: thread t counts once, if its bound leaves room.
  ghost predicate Increment(a: Atomic, a': Atomic) {
    exists t: nat ::
      t < |a.counts| && HasRoom(a, t) && a' == a.(total := a.total + 1, counts := a.counts[t := a.counts[t] + 1])
  }

  predicate HasRoom(a: Atomic, t: nat) {
    && t < |a.counts| && t < |a.bounds|
    && match a.bounds[t] case Times(n) => a.counts[t] < n case Until(max) => a.total != max
  }

  ghost function Abstract(s: State): Atomic {
    Atomic(s.gCount,
           seq(|s.threads|, i requires 0 <= i < |s.threads| => Done(s.threads[i])),
           seq(|s.threads|, i requires 0 <= i < |s.threads| => s.threads[i].code.bound))
  }

  lemma StoreIncrements(s: State, goal: Goal, t: nat)
    requires LockInv(s, goal) && Enabled(s, t) && s.threads[t].pc.Store?
    ensures Increment(Abstract(s), Abstract(Step(s, t)))
  {
    var a, a' := Abstract(s), Abstract(Step(s, t));
    assert ThreadOk(s, goal, t);
    assert a'.bounds == a.bounds && a'.counts == a.counts[t := a.counts[t] + 1];
    assert HasRoom(a, t);
  }

  lemma OthersStutter(s: State, t: nat)
    requires Enabled(s, t) && !s.threads[t].pc.Store?
    ensures Abstract(Step(s, t)) == Abstract(s)
  {
    var a, a' := Abstract(s), Abstract(Step(s, t));
    assert a'.bounds == a.bounds && a'.counts == a.counts;
  }

  // The store of g_count is the increment; every other step is invisible.
  lemma StepRefines(s: State, goal: Goal, t: nat)
    requires LockInv(s, goal) && Enabled(s, t)
    ensures s.threads[t].pc.Store? ==> Increment(Abstract(s), Abstract(Step(s, t)))
    ensures !s.threads[t].pc.Store? ==> Abstract(Step(s, t)) == Abstract(s)
  {
    hide LockInv, Abstract, Step, Increment;
    if s.threads[t].pc.Store? {
      StoreIncrements(s, goal, t);
    } else {
      OthersStutter(s, t);
    }
  }

  /** Every run, of any number of threads, is a run of the atomic counter once the steps that
      do not change it are dropped. */
  lemma {:induction false} RunRefinesAtomic(codes: seq<Code>, goal: Goal, run: seq<State>)
    requires CodesFor(codes, goal) && Runs.IsRun(Next, run) && run[0] == Init(codes)
    ensures Runs.IsRun(Increment, Runs.Shown(Abstract, run))
    ensures Runs.Reachable(Increment, Abstract(run[0]), Abstract(run[|run| - 1]))
  {
    var inv := (x: State) => LockInv(x, goal);
    InitKeepsLock(codes, goal);
    LockInductive(goal);
    forall x: State, x': State | inv(x) && Next(x, x')
      ensures Abstract(x') == Abstract(x) || Increment(Abstract(x), Abstract(x'))
    {
      var t: nat :| Enabled(x, t) && x' == Step(x, t);
      StepRefines(x, goal, t);
    }
    Runs.Refines(Next, inv, Abstract, Increment, run);
  }

  /** At most one thread is between lock and unlock. */
  lemma MutualExclusion(codes: seq<Code>, goal: Goal, s: State, t: nat, u: nat)
    requires CodesFor(codes, goal) && Runs.Reachable(Next, Init(codes), s)
    requires t < |s.threads| && u < |s.threads|
    requires InCriticalSection(s.threads[t].pc) && InCriticalSection(s.threads[u].pc)
    ensures t == u
  {
    LockInvReachable(codes, goal, s);
    assert ThreadOk(s, goal, t) && ThreadOk(s, goal, u);
  }

  // ----- Every run ends -----

  ghost function Measure(s: State, goal: Goal): int {
    TotalRank(s) + if goal.Some? then 9 * (goal.value - s.gCount) else 0
  }

  // A program whose threads count until a negative bound never stops; all others do.
  predicate Stops(goal: Goal) {
    goal.Some? ==> 0 <= goal.value
  }

  lemma MeasureNonNegative(s: State, goal: Goal)
    requires LockInv(s, goal) && Stops(goal)
    ensures 0 <= Measure(s, goal)
  {
    forall u | 0 <= u < |s.threads|
      ensures 0 <= Rank(s.threads[u])
    {
      assert ThreadOk(s, goal, u);
    }
    SumNonNegative(Rank, s.threads);
    if |s.threads| > 0 {
      assert ThreadOk(s, goal, 0);
    }
  }

  lemma StepLowersMeasure(s: State, goal: Goal, t: nat)
    requires LockInv(s, goal) && Stops(goal) && Enabled(s, t)
    ensures 0 <= Measure(Step(s, t), goal) < Measure(s, goal)
  {
    StepKeepsLock(s, goal, t);
    StepSums(s, t);
    assert ThreadOk(s, goal, t);
    MeasureNonNegative(Step(s, t), goal);
  }

  /** No run is longer than the measure of its first state. */
  lemma {:induction false} RunsAreFinite(codes: seq<Code>, goal: Goal, run: seq<State>)
    requires CodesFor(codes, goal) && Stops(goal) && |codes| > 0
    requires Runs.IsRun(Next, run) && run[0] == Init(codes)
    ensures |run| - 1 <= Measure(Init(codes), goal)
  {
    var inv := (x: State) => LockInv(x, goal) && Stops(goal);
    var measure := (x: State) => Measure(x, goal);
    InitKeepsLock(codes, goal);
    forall x: State, x': State | inv(x) && Next(x, x')
      ensures inv(x') && 0 <= measure(x') < measure(x)
    {
      var t: nat :| Enabled(x, t) && x' == Step(x, t);
      StepKeepsLock(x, goal, t);
      StepLowersMeasure(x, goal, t);
    }
    Runs.Bounded(Next, inv, measure, run);
    if |run| == 1 {
      MeasureNonNegative(Init(codes), goal);
    }
  }

  // A thread is stuck only if it has left, waits for the mutex another holds, or waits for the
  // semaphore; the holder of the mutex always has a step.
  lemma SomeoneMoves(s: State, goal: Goal, t: nat)
    requires LockInv(s, goal) && t < |s.threads| && s.threads[t].pc != Exited
    requires s.threads[t].pc == Wait ==> s.sem > 0
    ensures exists u: nat :: Enabled(s, u)
  {
    assert ThreadOk(s, goal, t);
    if s.threads[t].pc == Lock && s.owner.Some? {
      assert ThreadOk(s, goal, s.owner.value);
      assert Enabled(s, s.owner.value);
    } else {
      assert Enabled(s, t);
    }
  }

  ghost predicate NoWaiting(codes: seq<Code>) {
    forall i :: 0 <= i < |codes| ==> !codes[i].waits
  }

  /** Without semaphores there is no deadlock: only the state with all threads gone is final. */
  lemma DeadlockFree(codes: seq<Code>, goal: Goal, s: State)
    requires CodesFor(codes, goal) && NoWaiting(codes) && Runs.Reachable(Next, Init(codes), s)
    ensures Runs.Terminal(Next, s) <==> AllExited(s)
  {
    LockInvReachable(codes, goal, s);
    if t :| 0 <= t < |s.threads| && s.threads[t].pc != Exited {
      assert ThreadOk(s, goal, t);
      SomeoneMoves(s, goal, t);
      var u: nat :| Enabled(s, u);
      assert Next(s, Step(s, u));
    }
  }

  // ----- Under a schedule -----

  // The locked programs have a measure, and while anyone can move one of the threads can.
  lemma LockDescends(k: nat, goal: Goal)
    requires Stops(goal)
    ensures Runs.Descends(Enabled, Turn, (x: State) => LockInv(x, goal) && |x.threads| == k,
                          (x: State) => Measure(x, goal), Runs.Below(k))
  {
    var inv, measure := (x: State) => LockInv(x, goal) && |x.threads| == k, (x: State) => Measure(x, goal);
    hide LockInv, Measure, Step;
    forall s: State, t: nat, s': State | inv(s) && Turn(s, t, s')
      ensures inv(s') && if Enabled(s, t) then measure(s') < measure(s) else s' == s
    {
      if Enabled(s, t) {
        StepKeepsLock(s, goal, t);
        StepLowersMeasure(s, goal, t);
        StepSums(s, t);
      }
    }
    forall s: State, t: nat | inv(s) && Enabled(s, t)
      ensures 0 < measure(s) && exists u: nat :: u in Runs.Below(k) && Enabled(s, u)
    {
      StepLowersMeasure(s, goal, t);
      assert t in Runs.Below(k);
    }
  }

  /** A schedule with enough rounds of all threads, however it is arranged otherwise, brings the
      program to a state in which nobody can move. */
  lemma RoundsStop(codes: seq<Code>, goal: Goal, run: seq<State>, schedule: seq<nat>, r: nat)
    requires CodesFor(codes, goal) && Stops(goal)
    requires Runs.Plays(Turn, run, schedule) && run[0] == Init(codes)
    requires Runs.HasRounds(schedule, Runs.Below(|codes|), r) && Measure(Init(codes), goal) <= r
    ensures Runs.Terminal(Next, run[|schedule|]) && Runs.Reachable(Next, Init(codes), run[|schedule|])
  {
    var inv := (x: State) => LockInv(x, goal) && |x.threads| == |codes|;
    InitKeepsLock(codes, goal);
    LockDescends(|codes|, goal);
    assert inv(run[0]);
    hide LockInv, Measure, Step;
    Runs.EnoughRounds(Enabled, Turn, inv, (x: State) => Measure(x, goal), Runs.Below(|codes|), run, schedule, r);
    TurnsAreSteps();
    Runs.PlayReaches(Next, Turn, run, schedule);
  }

  // ----- EX04-03: n locked increments each -----

  function MutexCodes(ns: seq<nat>): seq<Code> {
    seq(|ns|, i requires 0 <= i < |ns| => Code(Times(ns[i]), true, false, None))
  }

  ghost function Iterations(n: nat): int {
    n
  }

  /** Where the unlocked program loses updates this one never does: when all threads have
      left, g_count is the sum of their iterations, however many threads and whatever n each. */
  lemma MutexTotal(ns: seq<nat>, s: State)
    requires Runs.Reachable(Next, Init(MutexCodes(ns)), s) && AllExited(s)
    ensures s.gCount == Sum(Iterations, ns)
    ensures |s.threads| == |ns| && forall t :: 0 <= t < |ns| ==> s.threads[t].count == ns[t]
  {
    LockInvReachable(MutexCodes(ns), None, s);
    forall t | 0 <= t < |ns|
      ensures s.threads[t].count == ns[t] && Done(s.threads[t]) == ns[t]
    {
      assert ThreadOk(s, None, t);
    }
    SumsAgree(s.threads, ns);
  }

  lemma {:induction false} SumsAgree(threads: seq<Thread>, ns: seq<nat>)
    requires |threads| == |ns| && forall t :: 0 <= t < |ns| ==> Done(threads[t]) == ns[t]
    ensures Sum(Done, threads) == Sum(Iterations, ns)
  {
    if ns != [] {
      SumsAgree(threads[1..], ns[1..]);
    }
  }

  /** main of EX04-03 with its two threads of n iterations: any schedule with enough rounds has
      both join, and then g_count is 2n. */
  method MutexMain(n: nat, schedule: seq<nat>) returns (gCount: int, joined: bool)
    ensures Runs.HasRounds(schedule, {0, 1}, 16 + 18 * n) ==> joined
    ensures joined ==> gCount == 2 * n
  {
    var codes := MutexCodes([n, n]);
    var m := new Machine(codes);
    ghost var run := m.Run(schedule);
    joined := m.Finished();
    gCount := m.gCount;
    if Runs.HasRounds(schedule, {0, 1}, 16 + 18 * n) {
      TwoThreads(codes, None);
      RoundsStop(codes, None, run, schedule, 16 + 18 * n);
      DeadlockFree(codes, None, m.View());
    }
    if joined {
      MutexTotal([n, n], m.View());
      SumTwo(Iterations, n, n);
    }
  }

  lemma TwoThreads(codes: seq<Code>, goal: Goal)
    requires |codes| == 2
    ensures Runs.Below(2) == {0, 1}
    ensures Measure(Init(codes), goal) == Rank(Start(codes[0])) + Rank(Start(codes[1]))
                                          + if goal.Some? then 9 * goal.value else 0
  {
    var s := Init(codes);
    assert s.threads == [s.threads[0], s.threads[1]];
    SumTwo(Rank, s.threads[0], s.threads[1]);
  }

  // ----- EX04-04: locked increments up to a shared bound -----

  function BoundCodes(k: nat, max: int): seq<Code> {
    seq(k, _ => Code(Until(max), true, false, None))
  }

  /** When all threads have left, g_count is exactly the bound and exactly what the threads
      counted together. */
  lemma BoundTotal(k: nat, max: int, s: State)
    requires k > 0 && Runs.Reachable(Next, Init(BoundCodes(k, max)), s) && AllExited(s)
    ensures s.gCount == max && max == Sum(Counted, s.threads)
  {
    LockInvReachable(BoundCodes(k, max), Some(max), s);
    assert ThreadOk(s, Some(max), 0);
    SumLe(Done, Counted, s.threads);
    SumLe(Counted, Done, s.threads);
  }

  /** The threads can all leave if and only if the bound is not negative; when it is, no
      reachable state is final. */
  lemma BoundStops(k: nat, max: int)
    requires k > 0
    ensures (exists s: State :: Runs.Reachable(Next, Init(BoundCodes(k, max)), s) && AllExited(s)) <==> 0 <= max
    ensures max < 0 ==> forall s: State :: Runs.Reachable(Next, Init(BoundCodes(k, max)), s) ==> !Runs.Terminal(Next, s)
  {
    var codes, goal := BoundCodes(k, max), Some(max);
    forall s: State | Runs.Reachable(Next, Init(codes), s) && AllExited(s)
      ensures 0 <= max
    {
      BoundTotal(k, max, s);
      LockInvReachable(codes, goal, s);
    }
    if 0 <= max {
      var inv := (x: State) => LockInv(x, goal);
      var measure := (x: State) => Measure(x, goal);
      InitKeepsLock(codes, goal);
      LockInductive(goal);
      forall x: State, x': State | inv(x) && Next(x, x')
        ensures 0 <= measure(x') < measure(x)
      {
        var t: nat :| Enabled(x, t) && x' == Step(x, t);
        StepLowersMeasure(x, goal, t);
      }
      MeasureNonNegative(Init(codes), goal);
      var s := Runs.CanFinish(Next, inv, measure, Init(codes));
      DeadlockFree(codes, goal, s);
    } else {
      forall s: State | Runs.Reachable(Next, Init(codes), s)
        ensures !Runs.Terminal(Next, s)
      {
        DeadlockFree(codes, goal, s);
      }
    }
  }

  /** main of EX04-04 with its two threads: any schedule with enough rounds has both join, and
      then g_count is the bound. */
  method BoundMain(max: nat, schedule: seq<nat>) returns (gCount: int, count1: nat, count2: nat, joined: bool)
    ensures Runs.HasRounds(schedule, {0, 1}, 16 + 9 * max) ==> joined
    ensures joined ==> gCount == max == count1 + count2
  {
    var codes := BoundCodes(2, max);
    var m := new Machine(codes);
    ghost var run := m.Run(schedule);
    LockInvReachable(codes, Some(max), m.View());
    joined := m.Finished();
    gCount, count1, count2 := m.gCount, m.threads[0].count, m.threads[1].count;
    if Runs.HasRounds(schedule, {0, 1}, 16 + 9 * max) {
      TwoThreads(codes, Some(max));
      RoundsStop(codes, Some(max), run, schedule, 16 + 9 * max);
      DeadlockFree(codes, Some(max), m.View());
    }
    if joined {
      BoundTotal(2, max, m.View());
      var counts := m.View().threads;
      assert counts == [counts[0], counts[1]];
      SumTwo(Counted, counts[0], counts[1]);
    }
  }
}
