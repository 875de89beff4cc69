/** EX04-05: two threads count up to a bound; the second waits on a semaphore that the first
  posts when it sees the counter at a threshold (100 in the source).
 */
module SemCounter {
  import opened Options
  import opened Sums
  import opened SharedCounter
  import opened LockedCounter
  import Runs

  function Codes(max: int, threshold: int): seq<Code> {
    [Code(Until(max), true, false, Some(threshold)), Code(Until(max), true, true, None)]
  }

  function Program(max: int, threshold: int): State {
    Init(Codes(max, threshold))
  }

  // Thread 1 has brought g_count to the threshold and has not yet posted.
  predicate PostPending(s: State, threshold: int)
    requires |s.threads| == 2
  {
    s.gCount == threshold && (s.threads[0].pc == Count || s.threads[0].pc == Signal || s.threads[0].pc == Post)
  }

  predicate SecondWaits(s: State)
    requires |s.threads| == 2
  {
    s.threads[1].pc == Wait
  }

  // Before the threshold the semaphore is untouched; from then on it has been posted once and
  // the unit is in the semaphore or was taken by thread 2.
  ghost predicate SemInv(s: State, max: int, threshold: int) {
    && LockInv(s, Some(max))
    && |s.threads| == 2
    && s.threads[0].code == Codes(max, threshold)[0]
    && s.threads[1].code == Codes(max, threshold)[1]
    && s.threads[0].pc != Wait
    && (s.threads[0].pc == Post ==> s.gCount == threshold)
    && s.posts == s.sem + (if SecondWaits(s) then 0 else 1)
    && s.posts == (if s.gCount < threshold || PostPending(s, threshold) then 0 else 1)
    && Done(s.threads[0]) >= (if s.gCount < threshold then s.gCount else threshold)
  }

  lemma StepKeepsSem(s: State, max: int, threshold: int, t: nat)
    requires 1 <= threshold && SemInv(s, max, threshold) && Enabled(s, t)
    ensures SemInv(Step(s, t), max, threshold)
  {
    var s' := Step(s, t);
    StepKeepsLock(s, Some(max), t);
    StepSums(s, t);
    assert ThreadOk(s, Some(max), 0) && ThreadOk(s, Some(max), 1);
    TwoDone(s);
    hide LockInv, BoundOk, Sum;
    if t == 0 {
      assert s'.threads[1] == s.threads[1];
    } else {
      assert s'.threads[0] == s.threads[0];
    }
  }

  lemma TwoDone(s: State)
    requires |s.threads| == 2
    ensures TotalDone(s) == Done(s.threads[0]) + Done(s.threads[1])
    ensures Sum(Counted, s.threads) == s.threads[0].count + s.threads[1].count
  {
    assert s.threads == [s.threads[0], s.threads[1]];
    SumTwo(Done, s.threads[0], s.threads[1]);
    SumTwo(Counted, s.threads[0], s.threads[1]);
  }

  lemma SemInvReachable(max: int, threshold: int, s: State)
    requires 1 <= threshold && Runs.Reachable(Next, Program(max, threshold), s)
    ensures SemInv(s, max, threshold)
  {
    var inv := (x: State) => SemInv(x, max, threshold);
    InitKeepsLock(Codes(max, threshold), Some(max));
    TwoDone(Program(max, threshold));
    forall x: State, x': State | inv(x) && Next(x, x')
      ensures inv(x')
    {
      var t: nat :| Enabled(x, t) && x' == Step(x, t);
      StepKeepsSem(x, max, threshold, t);
    }
    Runs.Kept(Next, inv, Program(max, threshold), s);
  }

  /** In every interleaving: the semaphore is posted at most once; thread 2 counts nothing
      while g_count is below the threshold, and never more than what lies above it; the first
      `threshold` increments are all thread 1's. */
  lemma SecondStartsAtThreshold(max: int, threshold: int, s: State)
    requires 1 <= threshold && Runs.Reachable(Next, Program(max, threshold), s)
    ensures |s.threads| == 2 && s.posts <= 1
    ensures Done(s.threads[1]) <= (if s.gCount <= threshold then 0 else s.gCount - threshold)
    ensures s.gCount < threshold ==> SecondWaits(s) && s.sem == 0
  {
    SemInvReachable(max, threshold, s);
    TwoDone(s);
  }

  /** Only thread 1 posts, and only with g_count at the threshold. */
  lemma OnlyFirstPosts(max: int, threshold: int, s: State, t: nat)
    requires 1 <= threshold && Runs.Reachable(Next, Program(max, threshold), s)
    requires Enabled(s, t) && Step(s, t).posts != s.posts
    ensures t == 0 && s.gCount == threshold && s.posts == 0
  {
    SemInvReachable(max, threshold, s);
    assert ThreadOk(s, Some(max), 0) && ThreadOk(s, Some(max), 1);
  }

  // The state in which the program hangs: thread 1 gone, thread 2 at sem_wait for good.
  predicate Hung(s: State) {
    |s.threads| == 2 && s.threads[0].pc == Exited && s.threads[1].pc == Wait && s.sem == 0
  }

  /** With a bound of at least 0 every run is finite, and where it can go no further the
      counter shows the bound. Both threads have left if and only if the bound is at least the
      threshold; otherwise thread 2 hangs on the semaphore and has counted nothing. */
  lemma MaximalRuns(max: int, threshold: int, s: State)
    requires 1 <= threshold && 0 <= max
    requires Runs.Reachable(Next, Program(max, threshold), s) && Runs.Terminal(Next, s)
    ensures |s.threads| == 2 && s.gCount == max == s.threads[0].count + s.threads[1].count
    ensures AllExited(s) <==> threshold <= max
    ensures Hung(s) <==> max < threshold
    ensures threshold <= max ==> s.posts == 1 && s.threads[0].count >= threshold
  {
    SemInvReachable(max, threshold, s);
    TwoDone(s);
    if t :| 0 <= t < 2 && s.threads[t].pc != Exited && (s.threads[t].pc == Wait ==> s.sem > 0) {
      SomeoneMoves(s, Some(max), t);
      var u: nat :| Enabled(s, u);
      assert Next(s, Step(s, u));
      assert false;
    }
    assert s.threads[0].pc == Exited;
    assert ThreadOk(s, Some(max), 0) && ThreadOk(s, Some(max), 1);
  }

  lemma NeverStops(max: int, threshold: int, s: State)
    requires 1 <= threshold && max < 0 && Runs.Reachable(Next, Program(max, threshold), s)
    ensures s.threads != [] && s.threads[0].pc != Exited && !Runs.Terminal(Next, s)
  {
    SemInvReachable(max, threshold, s);
    assert ThreadOk(s, Some(max), 0);
    SomeoneMoves(s, Some(max), 0);
    var u: nat :| Enabled(s, u);
    assert Next(s, Step(s, u));
  }

  /** The threads can both leave if and only if the bound reaches the threshold. With a negative
      bound thread 1 never leaves and no run comes to a stop. */
  lemma BothLeave(max: int, threshold: int)
    requires 1 <= threshold
    ensures (exists s: State :: Runs.Reachable(Next, Program(max, threshold), s) && AllExited(s)) <==> threshold <= max
    ensures max < 0 ==> forall s: State :: Runs.Reachable(Next, Program(max, threshold), s) ==>
              s.threads != [] && s.threads[0].pc != Exited && !Runs.Terminal(Next, s)
  {
    if max < 0 {
      forall s: State | Runs.Reachable(Next, Program(max, threshold), s)
        ensures s.threads != [] && s.threads[0].pc != Exited && !Runs.Terminal(Next, s)
      {
        NeverStops(max, threshold, s);
      }
    }
    forall s: State | Runs.Reachable(Next, Program(max, threshold), s) && AllExited(s)
      ensures threshold <= max
    {
      SemInvReachable(max, threshold, s);
      assert ThreadOk(s, Some(max), 1);
    }
    if threshold <= max {
      var goal := Some(max);
      var inv := (x: State) => LockInv(x, goal);
      var measure := (x: State) => Measure(x, goal);
      InitKeepsLock(Codes(max, threshold), goal);
      LockInductive(goal);
      forall x: State, x': State | inv(x) && Next(x, x')
        ensures 0 <= measure(x') < measure(x)
      {
        var t: nat :| Enabled(x, t) && x' == Step(x, t);
        StepLowersMeasure(x, goal, t);
      }
      MeasureNonNegative(Program(max, threshold), goal);
      var s := Runs.CanFinish(Next, inv, measure, Program(max, threshold));
      MaximalRuns(max, threshold, s);
    }
  }

  // ----- How the count is shared out -----

  // Thread t alone has gone through m laps.
  function Lapped(s: State, t: nat, m: nat, threshold: int): State
    requires t < |s.threads|
  {
    var post := if t == 0 && s.gCount < threshold <= s.gCount + m then 1 else 0;
    s.(gCount := s.gCount + m, sem := s.sem + post, posts := s.posts + post,
       threads := s.threads[t := s.threads[t].(count := s.threads[t].count + m)])
  }

  // Between laps: nobody in the critical section, thread t at the head of its loop.
  ghost predicate Ready(s: State, max: int, threshold: int, t: nat) {
    && |s.threads| == 2 && t < 2 && s.owner == None
    && s.threads[t].code == Codes(max, threshold)[t] && s.threads[t].pc == Top
  }

  function At(s: State, t: nat, pc: Pc): seq<Thread>
    requires t < |s.threads|
  {
    s.threads[t := s.threads[t].(pc := pc)]
  }

  // From the head of the loop to the store.
  lemma FirstHalf(s0: State, s: State, max: int, threshold: int, t: nat) returns (p: State)
    requires Runs.Reachable(Next, s0, s) && Ready(s, max, threshold, t) && s.gCount < max
    ensures Runs.Reachable(Next, s0, p)
    ensures p == s.(gCount := s.gCount + 1, owner := Some(t), threads := At(s, t, Count))
  {
    p := Go(s0, s, t);
    p := Go(s0, p, t);
    assert p == s.(owner := Some(t), threads := At(s, t, Check));
    p := Go(s0, p, t);
    p := Go(s0, p, t);
    assert p == s.(owner := Some(t), threads := At(s, t, Store(s.gCount)));
    p := Go(s0, p, t);
  }

  // From the store to the head of the loop, by way of the semaphore for thread 1.
  lemma SecondHalf(s0: State, s: State, max: int, threshold: int, t: nat) returns (p: State)
    requires Runs.Reachable(Next, s0, s) && |s.threads| == 2 && t < 2
    requires s.threads[t].code == Codes(max, threshold)[t] && s.threads[t].pc == Count
    ensures var post := if t == 0 && s.gCount == threshold then 1 else 0;
            p == s.(owner := None, sem := s.sem + post, posts := s.posts + post,
                    threads := s.threads[t := Thread(s.threads[t].code, Top, s.threads[t].count + 1)])
    ensures Runs.Reachable(Next, s0, p)
  {
    p := Go(s0, s, t);
    if t == 0 {
      p := Go(s0, p, t);
      if s.gCount == threshold {
        p := Go(s0, p, t);
      }
    }
    assert p.threads == s.threads[t := Thread(s.threads[t].code, Unlock, s.threads[t].count + 1)];
    p := Go(s0, p, t);
  }

  lemma Lap(s0: State, s: State, max: int, threshold: int, t: nat)
    requires Runs.Reachable(Next, s0, s) && Ready(s, max, threshold, t) && s.gCount < max
    ensures Runs.Reachable(Next, s0, Lapped(s, t, 1, threshold))
  {
    var p := FirstHalf(s0, s, max, threshold, t);
    p := SecondHalf(s0, p, max, threshold, t);
    assert p == Lapped(s, t, 1, threshold);
  }

  lemma {:induction false} Laps(s0: State, s: State, max: int, threshold: int, t: nat, m: nat)
    requires Runs.Reachable(Next, s0, s) && Ready(s, max, threshold, t) && s.gCount + m <= max
    ensures Runs.Reachable(Next, s0, Lapped(s, t, m, threshold))
    decreases m
  {
    if m == 0 {
      assert Lapped(s, t, 0, threshold) == s;
    } else {
      Lap(s0, s, max, threshold, t);
      var p := Lapped(s, t, 1, threshold);
      Laps(s0, p, max, threshold, t, m - 1);
      assert Lapped(p, t, m - 1, threshold) == Lapped(s, t, m, threshold);
    }
  }

  lemma LeaveLoop(s0: State, s: State, max: int, threshold: int, t: nat) returns (s': State)
    requires Runs.Reachable(Next, s0, s) && Ready(s, max, threshold, t) && s.gCount == max
    ensures Runs.Reachable(Next, s0, s')
    ensures s' == s.(threads := s.threads[t := s.threads[t].(pc := Exited)])
  {
    s' := Go(s0, s, t);
    s' := Go(s0, s', t);
    s' := Go(s0, s', t);
    s' := Go(s0, s', t);
  }

  // A run in which thread 1 counts c times: it counts to c, then thread 2 counts the rest.
  lemma SharedOut(max: int, threshold: int, c: int) returns (s: State)
    requires 1 <= threshold <= c <= max
    ensures Runs.Reachable(Next, Program(max, threshold), s) && AllExited(s)
    ensures |s.threads| == 2 && s.threads[0].count == c
  {
    var s0 := Program(max, threshold);
    Runs.Stay(Next, s0);
    Laps(s0, s0, max, threshold, 0, c);
    s := Lapped(s0, 0, c, threshold);
    s := Go(s0, s, 1);
    Laps(s0, s, max, threshold, 1, max - c);
    s := Lapped(s, 1, max - c, threshold);
    s := LeaveLoop(s0, s, max, threshold, 0);
    s := LeaveLoop(s0, s, max, threshold, 1);
  }

  /** The counts thread 1 can leave with, and so those of thread 2, are exactly those from the
      threshold to the bound. */
  lemma FirstCounts(max: int, threshold: int, c: int)
    requires 1 <= threshold
    ensures (exists s: State :: Runs.Reachable(Next, Program(max, threshold), s) && AllExited(s)
                                && |s.threads| == 2 && s.threads[0].count == c)
            <==> threshold <= c <= max
  {
    BothLeave(max, threshold);
    forall s: State | Runs.Reachable(Next, Program(max, threshold), s) && AllExited(s)
                      && |s.threads| == 2 && s.threads[0].count == c
      ensures threshold <= c <= max
    {
      MaximalRuns(max, threshold, s);
    }
    if threshold <= c <= max {
      var s := SharedOut(max, threshold, c);
    }
  }

  /** The explicit bound on the length of a run. */
  lemma {:induction false} RunLength(max: int, threshold: int, run: seq<State>)
    requires 1 <= threshold && 0 <= max
    requires Runs.IsRun(Next, run) && run[0] == Program(max, threshold)
    ensures |run| - 1 <= 17 + 9 * max
  {
    RunsAreFinite(Codes(max, threshold), Some(max), run);
    var s := Program(max, threshold);
    assert s.threads == [s.threads[0], s.threads[1]];
    SumTwo(Rank, s.threads[0], s.threads[1]);
  }

  /** main with the threshold of the source: any schedule with enough rounds has both threads
      join if the bound is at least 100, and otherwise leaves g_count at the bound with thread 2
      waiting. When both have joined g_count is the bound, which then is at least 100. */
  method SemMain(max: nat, schedule: seq<nat>) returns (gCount: int, count1: nat, count2: nat, joined: bool)
    ensures Runs.HasRounds(schedule, {0, 1}, 17 + 9 * max) ==> (joined <==> 100 <= max) && gCount == max
    ensures joined ==> 100 <= gCount == max == count1 + count2 && 100 <= count1
    ensures gCount <= 100 ==> count2 == 0
  {
    var codes := Codes(max, 100);
    var m := new Machine(codes);
    ghost var run := m.Run(schedule);
    SecondStartsAtThreshold(max, 100, m.View());
    joined := m.Finished();
    gCount, count1, count2 := m.gCount, m.threads[0].count, m.threads[1].count;
    if Runs.HasRounds(schedule, {0, 1}, 17 + 9 * max) {
      TwoThreads(codes, Some(max));
      RoundsStop(codes, Some(max), run, schedule, 17 + 9 * max);
      MaximalRuns(max, 100, m.View());
    }
    if joined {
      MaximalRuns(max, 100, m.View());
    }
  }
}
