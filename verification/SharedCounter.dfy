/** The thread programs of EX04-02 to EX04-05: threads that count on one global variable.

  One machine runs all four programs; what differs is the code of a thread: whether it
  counts a fixed number of times or until the counter shows a bound, whether it holds the
  mutex meanwhile, and whether it waits for the semaphore before it starts or posts it when
  the counter passes a threshold. Every load and store of `g_count` and every mutex or
  semaphore call is one step; steps of different threads interleave freely, under sequential
  consistency. Local work is merged into the step before it.
 */
module SharedCounter {
  import opened Options
  import opened Sums
  import Runs

  // Times(n): `for(i = 0; i < n; i++)`.  Until(max): `for(;;)`, left when g_count == max.
  datatype Bound = Times(n: nat) | Until(max: int)

  // postAt: the value of g_count at which the thread posts the semaphore, if it does.
  datatype Code = Code(bound: Bound, locks: bool, waits: bool, postAt: Option<int>)

  // The local variable `temp` is live only between the load and the store of g_count.
  datatype Pc = Wait | Top | Lock | Check | Load | Store(temp: int) | Count | Signal | Post | Unlock | Leave | Exited

  datatype Thread = Thread(code: Code, pc: Pc, count: nat)

  // posts counts the calls of sem_post so far.
  datatype State = State(gCount: int, owner: Option<nat>, sem: nat, posts: nat, threads: seq<Thread>)

  // The statement reached after entering the body of the loop, and after the counting is done.
  function BodyEntry(c: Code): Pc {
    if c.locks then Lock else AfterLock(c)
  }

  function AfterLock(c: Code): Pc {
    if c.bound.Until? then Check else Load
  }

  function AfterBody(c: Code): Pc {
    if c.locks then Unlock else Top
  }

  predicate Enabled(s: State, t: nat) {
    t < |s.threads| &&
    match s.threads[t].pc
    case Wait => s.sem > 0
    case Lock => s.owner.None?
    case Exited => false
    case _ => true
  }

  function Goto(s: State, t: nat, pc: Pc): State
    requires t < |s.threads|
  {
    s.(threads := s.threads[t := s.threads[t].(pc := pc)])
  }

  function Step(s: State, t: nat): State
    requires Enabled(s, t)
  {
    var th := s.threads[t];
    var c := th.code;
    match th.pc
    case Wait => Goto(s, t, Top).(sem := s.sem - 1)
    case Top => Goto(s, t, if c.bound.Times? && th.count >= c.bound.n then Exited else BodyEntry(c))
    case Lock => Goto(s, t, AfterLock(c)).(owner := Some(t))
    case Check => Goto(s, t, if c.bound.Until? && s.gCount == c.bound.max then Leave else Load)
    case Load => Goto(s, t, Store(s.gCount))
    case Store(temp) => Goto(s, t, Count).(gCount := temp + 1)
    case Count =>
      s.(threads := s.threads[t := Thread(c, if c.postAt.Some? then Signal else AfterBody(c), th.count + 1)])
    case Signal => Goto(s, t, if c.postAt == Some(s.gCount) then Post else AfterBody(c))
    case Post => Goto(s, t, AfterBody(c)).(sem := s.sem + 1, posts := s.posts + 1)
    case Unlock => Goto(s, t, Top).(owner := None)
    case Leave => Goto(s, t, Exited).(owner := None)
    case Exited => s
  }

  ghost predicate Next(s: State, s': State) {
    exists t: nat :: Enabled(s, t) && s' == Step(s, t)
  }

  // Thread t executes its next statement at the end of a run.
  lemma Go(a: State, s: State, t: nat) returns (s': State)
    requires Runs.Reachable(Next, a, s) && Enabled(s, t)
    ensures s' == Step(s, t) && Runs.Reachable(Next, a, s')
  {
    s' := Step(s, t);
    Runs.ThenStep(Next, a, s, s');
  }

  // What comes of a turn that a schedule gives to thread t.
  ghost predicate Turn(s: State, t: nat, s': State) {
    s' == if Enabled(s, t) then Step(s, t) else s
  }

  lemma TurnsAreSteps()
    ensures Runs.StepsOrStays(Next, Turn)
  {
  }

  predicate AllExited(s: State) {
    forall t :: 0 <= t < |s.threads| ==> s.threads[t].pc == Exited
  }

  function Start(c: Code): Thread {
    Thread(c, if c.waits then Wait else Top, 0)
  }

  // All threads created, none has taken a step; g_count and the semaphore start at zero.
  function Init(codes: seq<Code>): State {
    State(0, None, 0, 0, seq(|codes|, i requires 0 <= i < |codes| => Start(codes[i])))
  }

  // Increments of g_count that a thread has stored.
  function Done(th: Thread): int {
    th.count + if th.pc == Count then 1 else 0
  }

  // What the thread itself prints as counted.
  function Counted(th: Thread): int {
    th.count
  }

  ghost function TotalDone(s: State): int {
    Sum(Done, s.threads)
  }

  // Steps a thread can still take before it must store again.
  function Rank(th: Thread): int {
    (match th.pc
     case Wait => 9
     case Count => 12
     case Signal => 11
     case Post => 10
     case Unlock => 9
     case Top => 8
     case Lock => 7
     case Check => 6
     case Load => 5
     case Store(_) => 4
     case Leave => 1
     case Exited => 0)
    + if th.code.bound.Times? then 9 * (th.code.bound.n - Done(th)) else 0
  }

  ghost function TotalRank(s: State): int {
    Sum(Rank, s.threads)
  }

  lemma StepSums(s: State, t: nat)
    requires Enabled(s, t)
    ensures var s' := Step(s, t);
            && |s'.threads| == |s.threads|
            && TotalDone(s') == TotalDone(s) - Done(s.threads[t]) + Done(s'.threads[t])
            && TotalRank(s') == TotalRank(s) - Rank(s.threads[t]) + Rank(s'.threads[t])
  {
    var s' := Step(s, t);
    assert s'.threads == s.threads[t := s'.threads[t]];
    SumUpdate(Done, s.threads, t, s'.threads[t]);
    SumUpdate(Rank, s.threads, t, s'.threads[t]);
  }

  /** The machine in place: the globals of the program and the state of its threads. */
  class Machine {
    var gCount: int
    var owner: Option<nat>
    var sem: nat
    var posts: nat
    const threads: array<Thread>

    ghost function View(): State
      reads this, threads
    {
      State(gCount, owner, sem, posts, threads[..])
    }

    constructor (codes: seq<Code>)
      ensures View() == Init(codes)
      ensures fresh(threads)
    {
      gCount, owner, sem, posts := 0, None, 0, 0;
      threads := new Thread[|codes|](i requires 0 <= i < |codes| => Start(codes[i]));
    }

    method Goto(t: nat, pc: Pc)
      requires t < threads.Length
      modifies threads
      ensures threads[..] == old(threads[..])[t := old(threads[t]).(pc := pc)]
    {
      threads[t] := threads[t].(pc := pc);
    }

    // One statement of thread t. False, and nothing changed, when the thread blocks or has exited.
    method Advance(t: nat) returns (moved: bool)
      modifies this, threads
      ensures moved == old(Enabled(View(), t))
      ensures View() == if moved then old(Step(View(), t)) else old(View())
    {
      if t >= threads.Length {
        return false;
      }
      var c := threads[t].code;
      match threads[t].pc {
      case Wait =>
        if sem == 0 {
          return false;
        }
        sem := sem - 1;
        Goto(t, Top);
      case Top =>
        if c.bound.Times? && threads[t].count >= c.bound.n {
          Goto(t, Exited);
        } else {
          Goto(t, BodyEntry(c));
        }
      case Lock =>
        if owner.Some? {
          return false;
        }
        owner := Some(t);
        Goto(t, AfterLock(c));
      case Check =>
        if c.bound.Until? && gCount == c.bound.max {
          Goto(t, Leave);
        } else {
          Goto(t, Load);
        }
      case Load =>
        Goto(t, Store(gCount));
      case Store(temp) =>
        gCount := temp + 1;
        Goto(t, Count);
      case Count =>
        threads[t] := Thread(c, if c.postAt.Some? then Signal else AfterBody(c), threads[t].count + 1);
      case Signal =>
        Goto(t, if c.postAt == Some(gCount) then Post else AfterBody(c));
      case Post =>
        sem, posts := sem + 1, posts + 1;
        Goto(t, AfterBody(c));
      case Unlock =>
        owner := None;
        Goto(t, Top);
      case Leave =>
        owner := None;
        Goto(t, Exited);
      case Exited =>
        return false;
      }
      return true;
    }

    // Run under a given schedule; a scheduled thread that blocks loses its turn.
    method Run(schedule: seq<nat>) returns (ghost run: seq<State>)
      modifies this, threads
      ensures Runs.Plays(Turn, run, schedule) && run[0] == old(View()) && run[|schedule|] == View()
      ensures Runs.Reachable(Next, old(View()), View())
    {
      run := [View()];
      for i := 0 to |schedule|
        invariant Runs.Plays(Turn, run, schedule[..i]) && run[0] == old(View()) && run[i] == View()
      {
        var moved := Advance(schedule[i]);
        Runs.PlayOne(Turn, run, schedule[..i], schedule[i], View());
        assert schedule[..i + 1] == schedule[..i] + [schedule[i]];
        run := run + [View()];
      }
      assert schedule[..|schedule|] == schedule;
      TurnsAreSteps();
      Runs.PlayReaches(Next, Turn, run, schedule);
    }

    method Finished() returns (b: bool)
      ensures b == AllExited(View())
    {
      for t := 0 to threads.Length
        invariant forall u :: 0 <= u < t ==> threads[u].pc == Exited
      {
        if threads[t].pc != Exited {
          assert View().threads[t].pc != Exited;
          return false;
        }
      }
      return true;
    }
  }
}
