/** EX04-02: threads that count on g_count without any lock.

  For k threads of n iterations each, the values g_count can end with are exactly those
  from min(n, 2) to k * n, for every k of at least two.
 */
module RaceCounter {
  import opened Options
  import opened Sums
  import opened SharedCounter
  import Runs

  function RaceCode(n: nat): Code {
    Code(Times(n), false, false, None)
  }

  function Program(k: nat, n: nat): State {
    Init(seq(k, _ => RaceCode(n)))
  }

  function Min(a: int, b: int): int {
    if a < b then a else b
  }

  ghost predicate ThreadOk(s: State, n: nat, th: Thread) {
    && th.code == RaceCode(n)
    && (th.pc == Top || th.pc == Load || th.pc.Store? || th.pc == Count || th.pc == Exited)
    && (th.pc == Top ==> th.count <= n)
    && (th.pc == Load || th.pc.Store? || th.pc == Count ==> th.count < n)
    && (th.pc == Exited ==> th.count == n)
    && (Done(th) >= 1 ==> s.gCount >= 1)
    && (th.pc.Store? ==> 0 <= th.pc.temp <= TotalDone(s))
    && (th.pc.Store? && th.count >= 1 ==> th.pc.temp >= 1)
  }

  // What every interleaving keeps. The last line is the point: once the last increment of
  // the last thread is stored, its value is at least 2 (1 when n is 1), because a thread
  // that has stored before cannot load 0.
  ghost predicate RaceInv(s: State, n: nat) {
    && (forall t :: 0 <= t < |s.threads| ==> ThreadOk(s, n, s.threads[t]))
    && 0 <= s.gCount <= TotalDone(s)
    && ((exists t :: 0 <= t < |s.threads| && Done(s.threads[t]) < n) || s.gCount >= Min(n, 2) || |s.threads| == 0)
  }

  lemma InitKeepsRace(k: nat, n: nat)
    ensures RaceInv(Program(k, n), n)
  {
    var s := Program(k, n);
    SumConstant(Done, s.threads, 0);
    if n > 0 && k > 0 {
      assert Done(s.threads[0]) < n;
    }
  }

  lemma ThreadsStayOk(s: State, n: nat, t: nat, u: nat)
    requires RaceInv(s, n) && Enabled(s, t) && u < |s.threads|
    ensures |Step(s, t).threads| == |s.threads| && ThreadOk(Step(s, t), n, Step(s, t).threads[u])
  {
    StepSums(s, t);
    assert ThreadOk(s, n, s.threads[t]) && ThreadOk(s, n, s.threads[u]);
    hide TotalDone, TotalRank, Rank;
  }

  lemma GlobalStaysInRange(s: State, n: nat, t: nat)
    requires RaceInv(s, n) && Enabled(s, t)
    ensures 0 <= Step(s, t).gCount <= TotalDone(Step(s, t))
  {
    StepSums(s, t);
    assert ThreadOk(s, n, s.threads[t]);
    hide TotalDone, TotalRank, Rank;
  }

  // Unless a thread has still to store, g_count is at least 2, or 1 when n is.
  lemma LastStoreCounts(s: State, n: nat, t: nat)
    requires RaceInv(s, n) && Enabled(s, t)
    ensures var s' := Step(s, t);
            (exists u :: 0 <= u < |s'.threads| && Done(s'.threads[u]) < n) || s'.gCount >= Min(n, 2)
  {
    var s', th := Step(s, t), s.threads[t];
    assert ThreadOk(s, n, th);
    if w :| 0 <= w < |s.threads| && Done(s.threads[w]) < n {
      if w != t || Done(s'.threads[t]) < n {
        assert Done(s'.threads[w]) < n;
      } else {
        assert th.pc.Store? && s'.gCount == th.pc.temp + 1;
      }
    }
  }

  lemma StepKeepsRace(s: State, n: nat, t: nat)
    requires RaceInv(s, n) && Enabled(s, t)
    ensures RaceInv(Step(s, t), n)
    ensures Step(s, t).threads != [] && 0 <= Rank(s.threads[t])
  {
    assert ThreadOk(s, n, s.threads[t]);
    GlobalStaysInRange(s, n, t);
    LastStoreCounts(s, n, t);
    hide ThreadOk, Done;
    forall u | 0 <= u < |s.threads|
      ensures ThreadOk(Step(s, t), n, Step(s, t).threads[u])
    {
      ThreadsStayOk(s, n, t, u);
    }
  }

  lemma RaceInvReachable(k: nat, n: nat, s: State)
    requires Runs.Reachable(Next, Program(k, n), s)
    ensures RaceInv(s, n)
  {
    var inv := (x: State) => RaceInv(x, n);
    InitKeepsRace(k, n);
    forall x: State, x': State | inv(x) && Next(x, x')
      ensures inv(x')
    {
      var t: nat :| Enabled(x, t) && x' == Step(x, t);
      StepKeepsRace(x, n, t);
    }
    Runs.Kept(Next, inv, Program(k, n), s);
  }

  // The number of threads never changes.
  lemma SameThreads(a: State, b: State)
    requires Runs.Reachable(Next, a, b)
    ensures |b.threads| == |a.threads|
  {
    Runs.Kept(Next, (x: State) => |x.threads| == |a.threads|, a, b);
  }

  /** No interleaving ends outside min(n, 2) .. k * n. */
  lemma RaceBounds(k: nat, n: nat, s: State)
    requires k > 0
    requires Runs.Reachable(Next, Program(k, n), s) && AllExited(s)
    ensures Min(n, 2) <= s.gCount <= k * n
  {
    RaceInvReachable(k, n, s);
    SameThreads(Program(k, n), s);
    forall t | 0 <= t < |s.threads|
      ensures Done(s.threads[t]) == n
    {
      assert ThreadOk(s, n, s.threads[t]);
    }
    SumConstant(Done, s.threads, n);
  }

  // ----- Every value in between is reached -----

  // Threads that stand at the head of the loop with the given numbers of iterations done.
  ghost predicate Quiet(s: State, n: nat) {
    forall t :: 0 <= t < |s.threads| ==>
      s.threads[t].code == RaceCode(n) && s.threads[t].pc == Top && s.threads[t].count <= n
  }

  function Advanced(s: State, t: nat, m: nat): State
    requires t < |s.threads|
  {
    s.(gCount := s.gCount + m, threads := s.threads[t := s.threads[t].(count := s.threads[t].count + m)])
  }

  // Thread t, undisturbed, runs m iterations.
  lemma {:induction false} Iterate(a: State, s: State, n: nat, t: nat, m: nat)
    requires Runs.Reachable(Next, a, s)
    requires t < |s.threads| && s.threads[t].code == RaceCode(n) && s.threads[t].pc == Top
    requires s.threads[t].count + m <= n
    ensures Runs.Reachable(Next, a, Advanced(s, t, m))
    decreases m
  {
    if m == 0 {
      assert Advanced(s, t, 0) == s;
    } else {
      var p := Go(a, s, t);
      p := Go(a, p, t);
      p := Go(a, p, t);
      p := Go(a, p, t);
      assert p == Advanced(s, t, 1);
      Iterate(a, p, n, t, m - 1);
      assert Advanced(p, t, m - 1) == Advanced(s, t, m);
    }
  }

  // How far a thread may run before the race starts: the first two keep one iteration back.
  function Cap(t: nat, n: nat): int {
    if t < 2 then n - 1 else n
  }

  ghost predicate Unraced(s: State, n: nat) {
    && Quiet(s, n)
    && s.gCount == TotalDone(s)
    && forall t :: 0 <= t < |s.threads| ==> s.threads[t].count <= Cap(t, n)
  }

  // Without a race g_count counts the iterations; any total up to k * n - 2 can be had.
  lemma {:induction false} Spread(a: State, s: State, n: nat, target: nat) returns (s': State)
    requires Runs.Reachable(Next, a, s) && |s.threads| >= 2 && n >= 1
    requires Unraced(s, n) && s.gCount <= target <= |s.threads| * n - 2
    ensures Runs.Reachable(Next, a, s') && |s'.threads| == |s.threads|
    ensures Unraced(s', n) && s'.gCount == target
    decreases target - s.gCount
  {
    if s.gCount == target {
      s' := s;
    } else {
      var t := Room(s, n);
      Iterate(a, s, n, t, 1);
      var p := Advanced(s, t, 1);
      SumUpdate(Done, s.threads, t, p.threads[t]);
      s' := Spread(a, p, n, target);
    }
  }

  lemma AllAtCap(s: State, n: nat)
    requires |s.threads| >= 2 && n >= 1 && Quiet(s, n)
    requires forall u :: 0 <= u < |s.threads| ==> s.threads[u].count == Cap(u, n)
    ensures TotalDone(s) == |s.threads| * n - 2
  {
    var others := s.threads[1..];
    var rest := others[1..];
    assert forall u :: 0 <= u < |rest| ==> rest[u] == s.threads[u + 2];
    SumConstant(Done, rest, n);
    assert others[0] == s.threads[1] && Sum(Done, others) == Done(others[0]) + Sum(Done, rest);
    assert (|rest| + 2) * n == |rest| * n + 2 * n;
  }

  lemma Room(s: State, n: nat) returns (t: nat)
    requires |s.threads| >= 2 && n >= 1 && Unraced(s, n) && s.gCount < |s.threads| * n - 2
    ensures t < |s.threads| && s.threads[t].count < Cap(t, n)
  {
    if forall u :: 0 <= u < |s.threads| ==> s.threads[u].count == Cap(u, n) {
      AllAtCap(s, n);
      assert false;
    } else {
      t :| 0 <= t < |s.threads| && s.threads[t].count != Cap(t, n);
    }
  }

  // The threads from u on run all their iterations.
  lemma {:induction false} Complete(a: State, s: State, n: nat, u: nat) returns (s': State)
    requires Runs.Reachable(Next, a, s) && u <= |s.threads|
    requires forall t :: u <= t < |s.threads| ==>
               s.threads[t].code == RaceCode(n) && s.threads[t].pc == Top && s.threads[t].count <= n
    ensures Runs.Reachable(Next, a, s') && |s'.threads| == |s.threads|
    ensures s'.threads[..u] == s.threads[..u]
    ensures forall t :: u <= t < |s.threads| ==> s'.threads[t] == Thread(RaceCode(n), Top, n)
    decreases |s.threads| - u
  {
    if u == |s.threads| {
      s' := s;
    } else {
      Iterate(a, s, n, u, n - s.threads[u].count);
      var p := Advanced(s, u, n - s.threads[u].count);
      s' := Complete(a, p, n, u + 1);
      assert s'.threads[..u] == s'.threads[..u + 1][..u] == s.threads[..u];
      assert s'.threads[u] == s'.threads[..u + 1][u];
    }
  }

  // Threads that have done all their iterations leave the loop.
  lemma {:induction false} LeaveAll(a: State, s: State, n: nat, u: nat) returns (s': State)
    requires Runs.Reachable(Next, a, s) && u <= |s.threads|
    requires forall t :: 0 <= t < u ==> s.threads[t].pc == Exited
    requires forall t :: u <= t < |s.threads| ==> s.threads[t] == Thread(RaceCode(n), Top, n)
    ensures Runs.Reachable(Next, a, s') && AllExited(s') && s'.gCount == s.gCount
    decreases |s.threads| - u
  {
    if u == |s.threads| {
      s' := s;
    } else {
      var p := Go(a, s, u);
      s' := LeaveAll(a, p, n, u + 1);
    }
  }

  // From an unraced state, a run that ends exactly two above: thread 0 loads; the others run
  // all but the last iteration of thread 1; thread 0 stores, undoing them; thread 1 loads;
  // thread 0 runs out; thread 1 stores, undoing that too.
  lemma TwoMore(a: State, s: State, n: nat) returns (s': State)
    requires Runs.Reachable(Next, a, s) && |s.threads| >= 2 && n >= 1 && Unraced(s, n)
    ensures Runs.Reachable(Next, a, s') && AllExited(s') && s'.gCount == s.gCount + 2
  {
    var p := Go(a, s, 0);
    p := Go(a, p, 0);
    assert p.threads[0].pc == Store(s.gCount);
    p := Complete(a, p, n, 2);
    assert p.threads[0] == p.threads[..2][0] && p.threads[1] == p.threads[..2][1];
    var behind := n - 1 - p.threads[1].count;
    Iterate(a, p, n, 1, behind);
    p := Advanced(p, 1, behind);
    p := Go(a, p, 0);
    p := Go(a, p, 0);
    p := Go(a, p, 1);
    p := Go(a, p, 1);
    assert p.gCount == s.gCount + 1 && p.threads[1].pc == Store(s.gCount + 1);
    var left := n - p.threads[0].count;
    Iterate(a, p, n, 0, left);
    p := Advanced(p, 0, left);
    p := Go(a, p, 1);
    p := Go(a, p, 1);
    s' := LeaveAll(a, p, n, 0);
  }

  // With one iteration each, all but the first thread can be undone by the first.
  lemma OnlyOne(k: nat) returns (s': State)
    requires k >= 1
    ensures Runs.Reachable(Next, Program(k, 1), s') && AllExited(s') && s'.gCount == 1
  {
    var a := Program(k, 1);
    Runs.Stay(Next, a);
    var p := Go(a, a, 0);
    p := Go(a, p, 0);
    p := Complete(a, p, 1, 1);
    assert p.threads[0] == p.threads[..1][0];
    p := Go(a, p, 0);
    p := Go(a, p, 0);
    s' := LeaveAll(a, p, 1, 0);
  }

  /** Every value in min(n, 2) .. k * n is the final value of some run. */
  lemma RaceReaches(k: nat, n: nat, v: int) returns (s: State)
    requires k >= 2 && Min(n, 2) <= v <= k * n
    ensures Runs.Reachable(Next, Program(k, n), s) && AllExited(s) && s.gCount == v
  {
    var a := Program(k, n);
    Runs.Stay(Next, a);
    if n == 0 {
      s := LeaveAll(a, a, n, 0);
    } else if v == 1 {
      s := OnlyOne(k);
    } else {
      SumConstant(Done, a.threads, 0);
      var p := Spread(a, a, n, v - 2);
      s := TwoMore(a, p, n);
    }
  }

  /** The final values of g_count, for any number of threads of at least two and any n. */
  lemma RaceFinalValues(k: nat, n: nat, v: int)
    requires k >= 2
    ensures (exists s: State :: Runs.Reachable(Next, Program(k, n), s) && AllExited(s) && s.gCount == v)
            <==> Min(n, 2) <= v <= k * n
  {
    if s: State :| Runs.Reachable(Next, Program(k, n), s) && AllExited(s) && s.gCount == v {
      RaceBounds(k, n, s);
    }
    if Min(n, 2) <= v <= k * n {
      var s := RaceReaches(k, n, v);
    }
  }

  lemma StepLowersRank(s: State, n: nat, t: nat)
    requires RaceInv(s, n) && Enabled(s, t)
    ensures 0 <= TotalRank(Step(s, t)) < TotalRank(s)
  {
    StepKeepsRace(s, n, t);
    StepSums(s, t);
    assert ThreadOk(s, n, s.threads[t]);
    RankNonNegative(Step(s, t), n);
  }

  lemma RankNonNegative(s: State, n: nat)
    requires RaceInv(s, n)
    ensures 0 <= TotalRank(s)
  {
    forall u | 0 <= u < |s.threads|
      ensures 0 <= Rank(s.threads[u])
    {
      assert ThreadOk(s, n, s.threads[u]);
    }
    SumNonNegative(Rank, s.threads);
  }

  /** Every run is finite: it has at most k * (8 + 9n) steps, and it can go no further exactly
      when all threads have left. */
  lemma {:induction false} RaceTerminates(k: nat, n: nat, run: seq<State>)
    requires Runs.IsRun(Next, run) && run[0] == Program(k, n)
    ensures |run| - 1 <= k * (8 + 9 * n)
    ensures Runs.Terminal(Next, run[|run| - 1]) <==> AllExited(run[|run| - 1])
  {
    var inv := (x: State) => RaceInv(x, n);
    InitKeepsRace(k, n);
    forall x: State, x': State | inv(x) && Next(x, x')
      ensures inv(x') && 0 <= TotalRank(x') < TotalRank(x)
    {
      var t: nat :| Enabled(x, t) && x' == Step(x, t);
      StepKeepsRace(x, n, t);
      StepLowersRank(x, n, t);
    }
    Runs.Bounded(Next, inv, TotalRank, run);
    SumConstant(Rank, run[0].threads, 8 + 9 * n);
    var last := run[|run| - 1];
    Runs.KeptAt(Next, inv, run, |run| - 1);
    RankNonNegative(last, n);
    TerminalMeansExited(last, n);
  }

  lemma TerminalMeansExited(s: State, n: nat)
    requires RaceInv(s, n)
    ensures Runs.Terminal(Next, s) <==> AllExited(s)
  {
    if t :| 0 <= t < |s.threads| && s.threads[t].pc != Exited {
      assert ThreadOk(s, n, s.threads[t]);
      assert Next(s, Step(s, t));
    }
  }

  // ----- When the threads have joined -----

  // Turns a thread has made use of: four an iteration and one to leave the loop.
  function Used(th: Thread, n: nat): nat {
    match th.pc
    case Load => 4 * th.count + 1
    case Store(_) => 4 * th.count + 2
    case Count => 4 * th.count + 3
    case Exited => 4 * n + 1
    case _ => 4 * th.count
  }

  lemma TurnUsed(s: State, n: nat, t: nat, u: nat)
    requires RaceInv(s, n) && u < |s.threads|
    ensures Enabled(s, u) <==> s.threads[u].pc != Exited
    ensures Enabled(s, t) ==> |Step(s, t).threads| == |s.threads|
    ensures Enabled(s, t) ==>
              Used(Step(s, t).threads[u], n) == Used(s.threads[u], n) + if t == u then 1 else 0
    ensures Used(s.threads[u], n) <= 4 * n + 1
    ensures Used(s.threads[u], n) == 4 * n + 1 <==> s.threads[u].pc == Exited
  {
    assert ThreadOk(s, n, s.threads[u]);
  }

  // No turn is lost until the thread has left.
  lemma {:induction false} TurnsUsed(k: nat, n: nat, run: seq<State>, schedule: seq<nat>, u: nat)
    requires Runs.Plays(Turn, run, schedule) && run[0] == Program(k, n) && u < k
    ensures RaceInv(run[|schedule|], n) && |run[|schedule|].threads| == k
    ensures Used(run[|schedule|].threads[u], n) == Min(multiset(schedule)[u], 4 * n + 1)
  {
    if schedule == [] {
      InitKeepsRace(k, n);
    } else {
      var i := |schedule| - 1;
      var s, t := run[i], schedule[i];
      TurnsUsed(k, n, run[..i + 1], schedule[..i], u);
      assert Turn(s, t, run[i + 1]);
      assert schedule == schedule[..i] + [t];
      TurnUsed(s, n, t, u);
      if Enabled(s, t) {
        StepKeepsRace(s, n, t);
      }
    }
  }

  /** Under a given schedule all threads have left exactly when each has had 4n + 1 turns. */
  lemma RaceJoins(k: nat, n: nat, run: seq<State>, schedule: seq<nat>)
    requires Runs.Plays(Turn, run, schedule) && run[0] == Program(k, n)
    ensures |run[|schedule|].threads| == k
    ensures AllExited(run[|schedule|]) <==> forall t: nat :: t < k ==> multiset(schedule)[t] >= 4 * n + 1
  {
    TurnsAreSteps();
    Runs.PlayReaches(Next, Turn, run, schedule);
    SameThreads(run[0], run[|schedule|]);
    forall t: nat | t < k
      ensures run[|schedule|].threads[t].pc == Exited <==> multiset(schedule)[t] >= 4 * n + 1
    {
      TurnsUsed(k, n, run, schedule, t);
      TurnUsed(run[|schedule|], n, t, t);
    }
  }

  /** main of the program, for the two threads of the source: under any schedule that has both
      threads join, g_count is in the range, and the schedules that do are known. */
  method RaceMain(n: nat, schedule: seq<nat>) returns (gCount: int, joined: bool)
    ensures joined <==> multiset(schedule)[0] >= 4 * n + 1 && multiset(schedule)[1] >= 4 * n + 1
    ensures joined ==> Min(n, 2) <= gCount <= 2 * n
  {
    var m := new Machine(seq(2, _ => RaceCode(n)));
    ghost var run := m.Run(schedule);
    RaceJoins(2, n, run, schedule);
    joined := m.Finished();
    gCount := m.gCount;
    if joined {
      RaceBounds(2, n, m.View());
    }
  }
}
