/** EX04-06: threads that bake and one that boxes, under one mutex, with exit tests made after
  the mutex is released.

  The source has two makers, 100 pieces of bread and 10 boxes of 10; here they are the number
  of threads, `total`, `boxes` and `size`. The last thread is the boxer.
 */
module BreadFactory {
  import opened Options
  import opened Sums
  import Runs

  datatype Pc = Lock | Test | Load | Store(temp: int) | Unlock | ExitTest | Exited

  // laps counts the iterations of the endless loop that did not end in an exit.
  datatype Worker = Worker(boxer: bool, pc: Pc, laps: nat)

  datatype State = State(total: int, size: int, boxes: int, bread: int, box: int, owner: Option<nat>,
                         workers: seq<Worker>)

  predicate Enabled(s: State, t: nat) {
    t < |s.workers| && s.workers[t].pc != Exited && (s.workers[t].pc == Lock ==> s.owner.None?)
  }

  // Whether the thread has work: room for a piece of bread, or bread for a full box.
  predicate HasWork(s: State, boxer: bool) {
    if boxer then s.bread - s.box * s.size >= s.size else s.bread < s.total
  }

  predicate MayLeave(s: State, boxer: bool) {
    if boxer then s.box == s.boxes else s.bread >= s.total
  }

  function Goto(s: State, t: nat, pc: Pc): State
    requires t < |s.workers|
  {
    s.(workers := s.workers[t := s.workers[t].(pc := pc)])
  }

  function Step(s: State, t: nat): State
    requires Enabled(s, t)
  {
    var w := s.workers[t];
    match w.pc
    case Lock => Goto(s, t, Test).(owner := Some(t))
    case Test => Goto(s, t, if HasWork(s, w.boxer) then Load else Unlock)
    case Load => Goto(s, t, Store(if w.boxer then s.box else s.bread))
    case Store(temp) => if w.boxer then Goto(s, t, Unlock).(box := temp + 1) else Goto(s, t, Unlock).(bread := temp + 1)
    case Unlock => Goto(s, t, ExitTest).(owner := None)
    case ExitTest =>
      if MayLeave(s, w.boxer) then Goto(s, t, Exited)
      else s.(workers := s.workers[t := Worker(w.boxer, Lock, w.laps + 1)])
    case Exited => s
  }

  ghost predicate Next(s: State, s': State) {
    exists t: nat :: Enabled(s, t) && s' == Step(s, t)
  }

  // What comes of a turn that a schedule gives to thread t.
  ghost predicate Turn(s: State, t: nat, s': State) {
    s' == if Enabled(s, t) then Step(s, t) else s
  }

  function Init(makers: nat, total: int, size: int, boxes: int): State {
    State(total, size, boxes, 0, 0, None, seq(makers + 1, i => Worker(i == makers, Lock, 0)))
  }

  predicate AllExited(s: State) {
    forall t :: 0 <= t < |s.workers| ==> s.workers[t].pc == Exited
  }

  predicate InCriticalSection(pc: Pc) {
    pc == Test || pc == Load || pc.Store? || pc == Unlock
  }

  ghost predicate WorkerOk(s: State, t: nat)
    requires t < |s.workers|
  {
    var w := s.workers[t];
    && (w.boxer <==> t == |s.workers| - 1)
    && (InCriticalSection(w.pc) <==> s.owner == Some(t))
    && (w.pc == Load || w.pc.Store? ==> HasWork(s, w.boxer))
    && (w.pc.Store? ==> w.pc.temp == if w.boxer then s.box else s.bread)
    && (w.pc == Exited ==> MayLeave(s, w.boxer))
    && (w.boxer && (w.pc == Lock || w.pc == Test || w.pc == Load || w.pc.Store?) ==> s.box < s.boxes)
  }

  ghost predicate Inv(s: State) {
    && 1 <= s.size && 1 <= s.boxes && 0 <= s.total && |s.workers| >= 2
    && 0 <= s.box <= s.boxes && s.box * s.size <= s.bread <= s.total
    && (s.owner.Some? ==> s.owner.value < |s.workers|)
    && forall t :: 0 <= t < |s.workers| ==> WorkerOk(s, t)
  }

  function Alive(w: Worker): int {
    if w.pc == Exited then 0 else 1
  }

  ghost function TotalAlive(s: State): int {
    Sum(Alive, s.workers)
  }

  // How a later state of a run compares with an earlier one.
  ghost predicate Later(s: State, s': State) {
    && s'.total == s.total && s'.size == s.size && s'.boxes == s.boxes && |s'.workers| == |s.workers|
    && s.bread <= s'.bread && s.box <= s'.box
    && TotalAlive(s') <= TotalAlive(s)
    && forall t :: 0 <= t < |s.workers| ==>
         && s'.workers[t].boxer == s.workers[t].boxer
         && s.workers[t].laps <= s'.workers[t].laps
         && (s.workers[t].pc == Exited ==> s'.workers[t] == s.workers[t])
  }

  lemma WorkersOk(s: State, t: nat, u: nat)
    requires Inv(s) && Enabled(s, t) && u < |s.workers|
    ensures |Step(s, t).workers| == |s.workers| && WorkerOk(Step(s, t), u)
  {
    assert WorkerOk(s, t) && WorkerOk(s, u);
    assert (s.box + 1) * s.size == s.box * s.size + s.size;
  }

  lemma StockKeeps(s: State, t: nat)
    requires Inv(s) && Enabled(s, t)
    ensures var s' := Step(s, t);
            && s.box <= s'.box <= s'.boxes && s.bread <= s'.bread
            && s'.box * s'.size <= s'.bread <= s'.total
  {
    assert WorkerOk(s, t);
    assert (s.box + 1) * s.size == s.box * s.size + s.size;
  }

  lemma StepKeeps(s: State, t: nat)
    requires Inv(s) && Enabled(s, t)
    ensures Inv(Step(s, t)) && Later(s, Step(s, t))
    ensures TotalAlive(Step(s, t)) == TotalAlive(s) - (if Step(s, t).workers[t].pc == Exited then 1 else 0)
  {
    var s' := Step(s, t);
    SumUpdate(Alive, s.workers, t, s'.workers[t]);
    assert s'.workers == s.workers[t := s'.workers[t]];
    StockKeeps(s, t);
    hide WorkerOk, MayLeave, HasWork;
    forall u | 0 <= u < |s'.workers|
      ensures WorkerOk(s', u)
    {
      WorkersOk(s, t, u);
    }
  }

  lemma InitKeeps(makers: nat, total: int, size: int, boxes: int)
    requires 1 <= makers && 1 <= size && 1 <= boxes && 0 <= total
    ensures Inv(Init(makers, total, size, boxes))
  {
    forall t | 0 <= t <= makers
      ensures WorkerOk(Init(makers, total, size, boxes), t)
    {
    }
  }

  lemma InvInductive()
    ensures Runs.Inductive(Next, Inv)
  {
    forall x: State, x': State | Inv(x) && Next(x, x')
      ensures Inv(x')
    {
      var t: nat :| Enabled(x, t) && x' == Step(x, t);
      StepKeeps(x, t);
    }
  }

  lemma ReachableIsLater(s: State, s': State)
    requires Inv(s) && Runs.Reachable(Next, s, s')
    ensures Inv(s') && Later(s, s')
  {
    var inv := (x: State) => Inv(x) && Later(s, x);
    forall x: State, x': State | inv(x) && Next(x, x')
      ensures inv(x')
    {
      var t: nat :| Enabled(x, t) && x' == Step(x, t);
      StepKeeps(x, t);
    }
    Runs.Kept(Next, inv, s, s');
  }

  /** In every reachable state the boxes hold no more bread than was baked and no more bread
      was baked than ordered; and the two exit tests, made without the mutex, are safe because
      they stay true once true. */
  lemma SafeAndStable(makers: nat, total: int, size: int, boxes: int, s: State, s': State)
    requires 1 <= makers && 1 <= size && 1 <= boxes && 0 <= total
    requires Runs.Reachable(Next, Init(makers, total, size, boxes), s) && Runs.Reachable(Next, s, s')
    ensures 0 <= size * s.box <= s.bread <= total && s.box <= boxes
    ensures s.bread >= total ==> s'.bread >= total
    ensures s.box == boxes ==> s'.box == boxes
  {
    InitKeeps(makers, total, size, boxes);
    ReachableIsLater(Init(makers, total, size, boxes), s);
    ReachableIsLater(s, s');
  }

  // ----- What one lap does -----

  // From taking the mutex to releasing it: whether there is work is decided by the stock that
  // the thread found.
  ghost predicate InSection(s: State, x: State, t: nat) {
    && Inv(x) && |x.workers| == |s.workers| && t < |s.workers|
    && x.total == s.total && x.size == s.size && x.boxes == s.boxes
    && x.owner == Some(t) && x.workers[t].boxer == s.workers[t].boxer
    && var work := if s.workers[t].boxer then s.size * (s.box + 1) <= s.bread else s.bread < s.total;
       match x.workers[t].pc
       case Test => SameStock(s, x)
       case Load => SameStock(s, x) && work
       case Store(_) => SameStock(s, x) && work
       case Unlock =>
         && x.box == s.box + (if s.workers[t].boxer && work then 1 else 0)
         && x.bread == s.bread + (if !s.workers[t].boxer && work then 1 else 0)
       case _ => false
  }

  lemma StepInSection(s: State, x: State, t: nat, u: nat)
    requires InSection(s, x, t) && Enabled(x, u) && Step(x, u).owner == Some(t)
    ensures InSection(s, Step(x, u), t)
  {
    StepKeeps(x, u);
    assert WorkerOk(x, u) && WorkerOk(x, t);
    assert s.size * (s.box + 1) == s.box * s.size + s.size;
  }

  /** While a thread has the mutex, whatever the others do, the boxer fills exactly one box if the
      bread it found fills one more, and a maker bakes exactly one piece if it found the order
      not complete; otherwise the stock stays as it was. */
  lemma {:induction false} LapWorks(run: seq<State>, t: nat)
    requires Runs.IsRun(Next, run) && Inv(run[0]) && t < |run[0].workers| && run[0].workers[t].pc == Test
    requires forall k :: 0 <= k < |run| ==> run[k].owner == Some(t)
    ensures var s, s' := run[0], run[|run| - 1];
            && InSection(s, s', t)
            && (s'.workers[t].pc == Unlock ==>
                  && s'.box == s.box + (if s.workers[t].boxer && s.size * (s.box + 1) <= s.bread then 1 else 0)
                  && s'.bread == s.bread + (if !s.workers[t].boxer && s.bread < s.total then 1 else 0))
  {
    var n := |run| - 1;
    if n > 0 {
      var shorter := run[..n];
      forall i: nat | i + 1 < |shorter|
        ensures Runs.StepAt(Next, shorter, i)
      {
        assert Runs.StepAt(Next, run, i);
      }
      LapWorks(shorter, t);
      assert Runs.StepAt(Next, run, n - 1);
      var u: nat :| Enabled(run[n - 1], u) && run[n] == Step(run[n - 1], u);
      StepInSection(run[0], run[n - 1], t, u);
    }
  }

  /** After releasing the mutex a maker leaves if all bread is made and the boxer if all boxes are
      filled, by the stock as it then is; otherwise the thread starts over. */
  lemma LapEnds(s: State, t: nat)
    requires Enabled(s, t) && s.workers[t].pc == ExitTest
    ensures var s', w := Step(s, t), s.workers[t];
            && SameStock(s, s') && s'.owner == s.owner
            && s'.workers[t].pc == (if (if w.boxer then s.box == s.boxes else s.bread >= s.total) then Exited else Lock)
  {
  }

  // ----- A window in which every thread gets through its loop makes progress -----

  // Every thread alive at s has left by s', or has got through one whole iteration of its loop
  // in between: the lap it begins when it stands before the mutex, else the one after this.
  ghost predicate Window(s: State, s': State) {
    && |s'.workers| == |s.workers|
    && forall t :: 0 <= t < |s.workers| && s.workers[t].pc != Exited ==>
         || s'.workers[t].pc == Exited
         || s'.workers[t].laps >= s.workers[t].laps + (if s.workers[t].pc == Lock then 1 else 2)
  }

  ghost function Potential(s: State): int {
    (s.total - s.bread) + (s.boxes - s.box) + TotalAlive(s)
  }

  ghost predicate SameStock(s: State, s': State) {
    s'.bread == s.bread && s'.box == s.box
  }

  // As long as the stock stays as it was at s, a thread that had work then is before the store of
  // its first whole lap, and one that might leave then has begun no lap.
  ghost predicate OneLap(s: State, x: State, t: nat)
    requires t < |s.workers| && t < |x.workers|
  {
    var w, w' := s.workers[t], x.workers[t];
    && (HasWork(s, w.boxer) && !MayLeave(s, w.boxer) ==>
          && w'.pc != Exited
          && w'.laps <= w.laps + 1
          && (w.pc == Lock ==> w'.laps == w.laps)
          && (w.pc == Lock || w'.laps == w.laps + 1 ==>
                w'.pc == Lock || w'.pc == Test || w'.pc == Load || w'.pc.Store?))
    && (MayLeave(s, w.boxer) && w'.pc != Exited ==> w'.laps == w.laps)
  }

  ghost predicate Watch(s: State, x: State, t: nat) {
    && Inv(x) && Later(s, x) && t < |s.workers|
    && (SameStock(s, x) ==> OneLap(s, x, t))
    && (x.workers[t].pc == Exited ==> TotalAlive(x) + 1 <= TotalAlive(s))
  }

  lemma StepKeepsWatch(s: State, x: State, t: nat, u: nat)
    requires Watch(s, x, t) && Enabled(x, u)
    ensures Watch(s, Step(x, u), t)
  {
    StepKeeps(x, u);
    assert WorkerOk(x, u) && WorkerOk(x, t);
  }

  lemma Watched(s: State, s': State, t: nat)
    requires Inv(s) && t < |s.workers| && s.workers[t].pc != Exited && Runs.Reachable(Next, s, s')
    ensures Watch(s, s', t)
  {
    var inv := (x: State) => Watch(s, x, t);
    forall x: State, x': State | inv(x) && Next(x, x')
      ensures inv(x')
    {
      var u: nat :| Enabled(x, u) && x' == Step(x, u);
      StepKeepsWatch(s, x, t, u);
    }
    Runs.Kept(Next, inv, s, s');
  }

  // While a thread is alive one of them has work to do or may leave.
  lemma SomeoneCounts(s: State) returns (t: nat)
    requires Inv(s) && !AllExited(s) && s.size * s.boxes <= s.total
    ensures t < |s.workers| && s.workers[t].pc != Exited
    ensures HasWork(s, s.workers[t].boxer) || MayLeave(s, s.workers[t].boxer)
  {
    t :| 0 <= t < |s.workers| && s.workers[t].pc != Exited;
    assert WorkerOk(s, t) && WorkerOk(s, 0);
    if s.bread < s.total {
      t := 0;
    } else if s.workers[t].boxer && s.box < s.boxes {
      assert (s.box + 1) * s.size <= s.boxes * s.size;
      assert (s.box + 1) * s.size == s.box * s.size + s.size;
    }
  }

  /** Every window lowers the potential, from whatever reachable state it starts. */
  lemma WindowLowersPotential(s: State, s': State)
    requires Inv(s) && !AllExited(s) && s.size * s.boxes <= s.total
    requires Runs.Reachable(Next, s, s') && Window(s, s')
    ensures 0 <= Potential(s') < Potential(s)
  {
    ReachableIsLater(s, s');
    var t := SomeoneCounts(s);
    Watched(s, s', t);
    SumNonNegative(Alive, s'.workers);
  }

  // ----- Strongly fair runs end -----

  // An infinite run: who(i) names the thread that takes step i; nothing happens any more
  // once all threads have left.
  ghost predicate Moves(r: nat -> State, who: nat -> nat, i: nat) {
    if AllExited(r(i)) then r(i + 1) == r(i) else Enabled(r(i), who(i)) && r(i + 1) == Step(r(i), who(i))
  }

  ghost predicate IsInfiniteRun(r: nat -> State, who: nat -> nat) {
    Inv(r(0)) && forall i: nat :: Moves(r, who, i)
  }

  ghost predicate Takes(r: nat -> State, who: nat -> nat, i: nat, t: nat) {
    Enabled(r(i), t) && who(i) == t
  }

  ghost predicate EnabledAfter(r: nat -> State, t: nat, i: nat) {
    exists l: nat :: l >= i && Enabled(r(l), t)
  }

  ghost predicate TakesAfter(r: nat -> State, who: nat -> nat, t: nat, i: nat) {
    exists l: nat :: l >= i && Takes(r, who, l, t)
  }

  // A thread that can take its next step again and again takes it in the end. It is allowed
  // to lose the mutex any number of times, but not for ever.
  ghost predicate StronglyFair(r: nat -> State, who: nat -> nat) {
    forall t: nat :: KeepsBeingEnabled(r, t) ==> forall i: nat :: TakesAfter(r, who, t, i)
  }

  ghost predicate KeepsBeingEnabled(r: nat -> State, t: nat) {
    forall i: nat :: EnabledAfter(r, t, i)
  }

  lemma {:induction false} RunFrom(r: nat -> State, who: nat -> nat, i: nat, j: nat)
    requires IsInfiniteRun(r, who) && i <= j
    ensures Inv(r(i)) && Inv(r(j)) && Later(r(i), r(j)) && Runs.Reachable(Next, r(i), r(j))
    decreases j
  {
    if i < j {
      RunFrom(r, who, i, j - 1);
      assert Moves(r, who, j - 1);
      if !AllExited(r(j - 1)) {
        StepKeeps(r(j - 1), who(j - 1));
        assert Next(r(j - 1), r(j));
        Runs.ThenStep(Next, r(i), r(j - 1), r(j));
      }
    } else if i > 0 {
      RunFrom(r, who, 0, i - 1);
      assert Moves(r, who, i - 1);
      if !AllExited(r(i - 1)) {
        StepKeeps(r(i - 1), who(i - 1));
      }
      Runs.Stay(Next, r(i));
    } else {
      Runs.Stay(Next, r(i));
    }
  }

  // A thread that takes no step stays where it is, and keeps the mutex if it holds it.
  lemma {:induction false} Untouched(r: nat -> State, who: nat -> nat, t: nat, i: nat, j: nat)
    requires IsInfiniteRun(r, who) && i <= j && t < |r(i).workers|
    requires forall l: nat :: i <= l < j ==> !Takes(r, who, l, t)
    ensures |r(j).workers| == |r(i).workers| && r(j).workers[t] == r(i).workers[t]
    ensures r(i).owner == Some(t) ==> r(j).owner == Some(t)
    decreases j
  {
    if i < j {
      Untouched(r, who, t, i, j - 1);
      RunFrom(r, who, i, j - 1);
      assert Moves(r, who, j - 1) && !Takes(r, who, j - 1, t);
      if !AllExited(r(j - 1)) {
        assert WorkerOk(r(j - 1), who(j - 1));
      }
    }
  }

  // The first step of t from i on.
  lemma {:induction false} FirstTake(r: nat -> State, who: nat -> nat, t: nat, i: nat, j: nat) returns (l: nat)
    requires i <= j && Takes(r, who, j, t)
    ensures i <= l && Takes(r, who, l, t) && forall k: nat :: i <= k < l ==> !Takes(r, who, k, t)
    decreases j
  {
    if k: nat :| i <= k < j && Takes(r, who, k, t) {
      l := FirstTake(r, who, t, i, k);
    } else {
      l := j;
    }
  }

  lemma FairTake(r: nat -> State, who: nat -> nat, t: nat, i: nat) returns (l: nat)
    requires StronglyFair(r, who)
    requires forall j: nat :: j >= i && (forall k: nat :: i <= k < j ==> !Takes(r, who, k, t)) ==> EnabledAfter(r, t, j)
    ensures i <= l && Takes(r, who, l, t) && forall k: nat :: i <= k < l ==> !Takes(r, who, k, t)
  {
    if !TakesAfter(r, who, t, i) {
      forall j: nat
        ensures EnabledAfter(r, t, j)
      {
        if j < i {
          assert EnabledAfter(r, t, i);
        }
      }
      assert KeepsBeingEnabled(r, t);
    }
    var j: nat :| j >= i && Takes(r, who, j, t);
    l := FirstTake(r, who, t, i, j);
  }

  // A thread that does not stand before the mutex takes its next step.
  lemma TakesStep(r: nat -> State, who: nat -> nat, t: nat, i: nat) returns (l: nat)
    requires IsInfiniteRun(r, who) && StronglyFair(r, who)
    requires t < |r(i).workers| && r(i).workers[t].pc != Exited && r(i).workers[t].pc != Lock
    ensures i <= l && Takes(r, who, l, t) && forall k: nat :: i <= k < l ==> !Takes(r, who, k, t)
  {
    forall j: nat | j >= i && (forall k: nat :: i <= k < j ==> !Takes(r, who, k, t))
      ensures EnabledAfter(r, t, j)
    {
      Untouched(r, who, t, i, j);
      assert Enabled(r(j), t);
    }
    l := FairTake(r, who, t, i);
  }

  function LapRank(pc: Pc): nat {
    match pc
    case Lock => 6 case Test => 5 case Load => 4 case Store(_) => 3 case Unlock => 2 case ExitTest => 1 case Exited => 0
  }

  // The holder releases the mutex; until then it is the holder.
  lemma {:induction false} Releases(r: nat -> State, who: nat -> nat, u: nat, i: nat) returns (l: nat)
    requires IsInfiniteRun(r, who) && StronglyFair(r, who)
    requires r(i).owner == Some(u)
    ensures i <= l && r(l).owner.None? && forall k: nat :: i <= k < l ==> r(k).owner == Some(u)
    decreases if u < |r(i).workers| then LapRank(r(i).workers[u].pc) else 0
  {
    RunFrom(r, who, 0, i);
    assert WorkerOk(r(i), u);
    var f := TakesStep(r, who, u, i);
    forall k: nat | i <= k <= f
      ensures r(k).owner == Some(u)
    {
      Untouched(r, who, u, i, k);
    }
    Untouched(r, who, u, i, f);
    assert Moves(r, who, f);
    if r(f + 1).owner.None? {
      l := f + 1;
    } else {
      l := Releases(r, who, u, f + 1);
    }
  }

  // Before the mutex too: it is free again and again.
  lemma TakesAnyStep(r: nat -> State, who: nat -> nat, t: nat, i: nat) returns (l: nat)
    requires IsInfiniteRun(r, who) && StronglyFair(r, who)
    requires t < |r(i).workers| && r(i).workers[t].pc != Exited
    ensures i <= l && Takes(r, who, l, t) && forall k: nat :: i <= k < l ==> !Takes(r, who, k, t)
  {
    if r(i).workers[t].pc != Lock {
      l := TakesStep(r, who, t, i);
    } else {
      forall j: nat | j >= i && (forall k: nat :: i <= k < j ==> !Takes(r, who, k, t))
        ensures EnabledAfter(r, t, j)
      {
        Untouched(r, who, t, i, j);
        if r(j).owner.Some? {
          var f := Releases(r, who, r(j).owner.value, j);
          if k: nat :| j <= k < f && Takes(r, who, k, t) {
            var first := FirstTake(r, who, t, j, k);
            Untouched(r, who, t, j, first);
            assert false;
          }
          Untouched(r, who, t, j, f);
          assert Enabled(r(f), t);
        } else {
          assert Enabled(r(j), t);
        }
      }
      l := FairTake(r, who, t, i);
    }
  }

  // Every thread that is alive leaves or starts its loop anew.
  lemma {:induction false} NextLap(r: nat -> State, who: nat -> nat, t: nat, i: nat) returns (l: nat)
    requires IsInfiniteRun(r, who) && StronglyFair(r, who)
    requires t < |r(i).workers| && r(i).workers[t].pc != Exited
    ensures i <= l && t < |r(l).workers|
    ensures r(l).workers[t].pc == Exited || r(l).workers[t].laps == r(i).workers[t].laps + 1
    decreases LapRank(r(i).workers[t].pc)
  {
    var f := TakesAnyStep(r, who, t, i);
    Untouched(r, who, t, i, f);
    assert Moves(r, who, f);
    if r(i).workers[t].pc == ExitTest {
      l := f + 1;
    } else {
      l := NextLap(r, who, t, f + 1);
    }
  }

  // The threads below u get through two laps.
  lemma {:induction false} WindowFor(r: nat -> State, who: nat -> nat, i: nat, u: nat) returns (l: nat)
    requires IsInfiniteRun(r, who) && StronglyFair(r, who) && u <= |r(i).workers|
    ensures i <= l && |r(l).workers| == |r(i).workers|
    ensures forall t :: 0 <= t < u && r(i).workers[t].pc != Exited ==>
              r(l).workers[t].pc == Exited || r(l).workers[t].laps >= r(i).workers[t].laps + 2
  {
    if u == 0 {
      l := i;
    } else {
      var f := WindowFor(r, who, i, u - 1);
      l := f;
      RunFrom(r, who, i, f);
      if r(f).workers[u - 1].pc != Exited {
        l := NextLap(r, who, u - 1, f);
        var m := l;
        RunFrom(r, who, f, m);
        if r(l).workers[u - 1].pc != Exited {
          l := NextLap(r, who, u - 1, l);
          RunFrom(r, who, m, l);
        }
      }
      RunFrom(r, who, f, l);
    }
  }

  lemma {:induction false} EndsFrom(r: nat -> State, who: nat -> nat, i: nat) returns (l: nat)
    requires IsInfiniteRun(r, who) && StronglyFair(r, who)
    requires r(i).size * r(i).boxes <= r(i).total
    ensures i <= l && AllExited(r(l))
    decreases Potential(r(i))
  {
    RunFrom(r, who, 0, i);
    if AllExited(r(i)) {
      l := i;
    } else {
      var f := WindowFor(r, who, i, |r(i).workers|);
      RunFrom(r, who, i, f);
      WindowLowersPotential(r(i), r(f));
      l := EndsFrom(r, who, f);
    }
  }

  /** With enough bread ordered for all boxes, every strongly fair run ends in spite of the busy
      waiting: all threads leave, all bread is made and all boxes are filled. */
  lemma FairRunsEnd(makers: nat, total: int, size: int, boxes: int, r: nat -> State, who: nat -> nat)
    requires 1 <= makers && 1 <= size && 1 <= boxes && 0 <= total
    requires r(0) == Init(makers, total, size, boxes) && IsInfiniteRun(r, who) && StronglyFair(r, who)
    requires size * boxes <= total
    ensures exists i: nat :: AllExited(r(i)) && r(i).bread == total && r(i).box == boxes
  {
    var l := EndsFrom(r, who, 0);
    RunFrom(r, who, 0, l);
    assert WorkerOk(r(l), 0) && WorkerOk(r(l), makers);
  }

  /** With less bread than the boxes need, no run ends, fair or not: the boxer waits for ever. */
  lemma TooLittleBread(makers: nat, total: int, size: int, boxes: int, s: State)
    requires 1 <= makers && 1 <= size && 1 <= boxes && 0 <= total
    requires Runs.Reachable(Next, Init(makers, total, size, boxes), s)
    requires total < size * boxes
    ensures s.workers != [] && s.workers[|s.workers| - 1].pc != Exited && !Runs.Terminal(Next, s)
  {
    InitKeeps(makers, total, size, boxes);
    ReachableIsLater(Init(makers, total, size, boxes), s);
    assert WorkerOk(s, makers);
    assert s.box * s.size == size * s.box;
    NoDeadlock(s);
  }

  // ----- The end stays within reach -----

  // How far a thread is from its next store or its exit while the stock stays as it is. A thread
  // with nothing to do and no leave is only on its way out of the mutex.
  function Distance(s: State, w: Worker): nat {
    if MayLeave(s, w.boxer) then
      match w.pc case Lock => 4 case Test => 3 case Unlock => 2 case ExitTest => 1 case _ => 0
    else if HasWork(s, w.boxer) then
      match w.pc case Unlock => 6 case ExitTest => 5 case Lock => 4 case Test => 3 case Load => 2 case _ => 1
    else
      match w.pc case Test => 2 case Unlock => 1 case _ => 0
  }

  ghost function TotalDistance(s: State): int {
    Sum((w: Worker) => Distance(s, w), s.workers)
  }

  // The holder of the mutex, or without one a thread that has work or may leave.
  ghost predicate Urgent(s: State, t: nat) {
    && Enabled(s, t)
    && (s.owner == Some(t) || HasWork(s, s.workers[t].boxer) || MayLeave(s, s.workers[t].boxer))
  }

  lemma SomeoneUrgent(s: State) returns (t: nat)
    requires Inv(s) && !AllExited(s) && s.size * s.boxes <= s.total
    ensures Urgent(s, t)
  {
    if s.owner.Some? {
      t := s.owner.value;
      assert WorkerOk(s, t);
    } else {
      t := SomeoneCounts(s);
    }
  }

  lemma DistanceStep(s: State, t: nat)
    requires Inv(s) && Urgent(s, t) && SameStock(s, Step(s, t)) && Step(s, t).workers[t].pc != Exited
    ensures Distance(s, Step(s, t).workers[t]) < Distance(s, s.workers[t])
  {
    assert WorkerOk(s, t);
  }

  lemma UrgentStepsLower(s: State, t: nat)
    requires Inv(s) && Urgent(s, t)
    ensures 0 <= Potential(s) && 0 <= TotalDistance(s)
    ensures var s' := Step(s, t);
            Potential(s') < Potential(s) || (Potential(s') == Potential(s) && TotalDistance(s') < TotalDistance(s))
  {
    var s' := Step(s, t);
    StepKeeps(s, t);
    assert WorkerOk(s, t);
    SumNonNegative(Alive, s.workers);
    var d, d' := (w: Worker) => Distance(s, w), (w: Worker) => Distance(s', w);
    SumNonNegative(d, s.workers);
    if SameStock(s, s') && s'.workers[t].pc != Exited {
      assert s'.workers == s.workers[t := s'.workers[t]];
      DistanceStep(s, t);
      SumUpdate(d, s.workers, t, s'.workers[t]);
      SumLe(d', d, s'.workers);
    }
  }

  lemma {:induction false} CanEnd(s: State) returns (e: State)
    requires Inv(s) && s.size * s.boxes <= s.total
    ensures Runs.Reachable(Next, s, e) && AllExited(e)
    decreases Potential(s), TotalDistance(s)
  {
    if AllExited(s) {
      Runs.Stay(Next, s);
      e := s;
    } else {
      var t := SomeoneUrgent(s);
      var m := Step(s, t);
      StepKeeps(s, t);
      UrgentStepsLower(s, t);
      e := CanEnd(m);
      Runs.Step(Next, s, m);
      Runs.Then(Next, s, m, e);
    }
  }

  /** The program can come to its end, and then from every state it can be in, if and only if
      the bread ordered fills all boxes. */
  lemma EndIsReachable(makers: nat, total: int, size: int, boxes: int)
    requires 1 <= makers && 1 <= size && 1 <= boxes && 0 <= total
    ensures (forall s: State :: Runs.Reachable(Next, Init(makers, total, size, boxes), s) ==>
               exists e: State :: Runs.Reachable(Next, s, e) && AllExited(e))
            <==> size * boxes <= total
  {
    var s0 := Init(makers, total, size, boxes);
    InitKeeps(makers, total, size, boxes);
    if size * boxes <= total {
      forall s: State | Runs.Reachable(Next, s0, s)
        ensures exists e: State :: Runs.Reachable(Next, s, e) && AllExited(e)
      {
        ReachableIsLater(s0, s);
        var e := CanEnd(s);
      }
    } else {
      Runs.Stay(Next, s0);
      forall e: State | Runs.Reachable(Next, s0, e)
        ensures !AllExited(e)
      {
        TooLittleBread(makers, total, size, boxes, e);
      }
    }
  }

  // Nothing is enabled after the end, so a run that ends is fair.
  lemma EndedIsFair(r: nat -> State, who: nat -> nat, i: nat)
    requires IsInfiniteRun(r, who) && AllExited(r(i))
    ensures StronglyFair(r, who)
  {
    forall t: nat
      ensures !KeepsBeingEnabled(r, t)
    {
      forall l: nat | l >= i
        ensures !Enabled(r(l), t)
      {
        RunFrom(r, who, i, l);
      }
      assert !EnabledAfter(r, t, i);
    }
  }

  ghost function Mover(s: State, s': State): nat
    requires Next(s, s')
  {
    var t: nat :| Enabled(s, t) && s' == Step(s, t);
    t
  }

  /** There are such runs: any run to the end, continued by doing nothing, is strongly fair. */
  lemma FairRunExists(makers: nat, total: int, size: int, boxes: int) returns (r: nat -> State, who: nat -> nat)
    requires 1 <= makers && 1 <= size && 1 <= boxes && 0 <= total && size * boxes <= total
    ensures r(0) == Init(makers, total, size, boxes) && IsInfiniteRun(r, who) && StronglyFair(r, who)
  {
    var s0 := Init(makers, total, size, boxes);
    InitKeeps(makers, total, size, boxes);
    var e := CanEnd(s0);
    var run: seq<State> :| Runs.IsRunFromTo(Next, run, s0, e);
    var n := |run| - 1;
    r := (i: nat) => if i < n then run[i] else e;
    who := (i: nat) => if i < n && Next(run[i], run[i + 1]) then Mover(run[i], run[i + 1]) else 0;
    forall i: nat
      ensures Moves(r, who, i)
    {
      if i < n {
        assert Runs.StepAt(Next, run, i);
        assert Enabled(r(i), who(i)) && r(i + 1) == Step(r(i), who(i));
      }
    }
    EndedIsFair(r, who, n);
  }

  /** No deadlock: only the state with all threads gone is final. */
  lemma NoDeadlock(s: State)
    requires Inv(s)
    ensures Runs.Terminal(Next, s) <==> AllExited(s)
  {
    if t :| 0 <= t < |s.workers| && s.workers[t].pc != Exited {
      var u := if Enabled(s, t) || s.owner.None? then t else s.owner.value;
      assert WorkerOk(s, u) && WorkerOk(s, t);
      assert Next(s, Step(s, u));
    }
  }

  /** With bread for all boxes some schedule has all threads leave. */
  lemma SomeScheduleEnds(makers: nat, total: int, size: int, boxes: int)
    returns (schedule: seq<nat>, run: seq<State>)
    requires 1 <= makers && 1 <= size && 1 <= boxes && 0 <= total && size * boxes <= total
    ensures Runs.Plays(Turn, run, schedule) && run[0] == Init(makers, total, size, boxes)
    ensures AllExited(run[|schedule|]) && run[|schedule|].bread == total && run[|schedule|].box == boxes
  {
    var s0 := Init(makers, total, size, boxes);
    InitKeeps(makers, total, size, boxes);
    var e := CanEnd(s0);
    run :| Runs.IsRunFromTo(Next, run, s0, e);
    forall s: State, s': State | Next(s, s')
      ensures exists t: nat :: Turn(s, t, s')
    {
      var t: nat :| Enabled(s, t) && s' == Step(s, t);
      assert Turn(s, t, s');
    }
    schedule := Runs.Scripted(Next, Turn, run);
    ReachableIsLater(s0, e);
    assert WorkerOk(e, 0) && WorkerOk(e, makers);
  }

  // ----- Fairness is needed -----

  // The boxer alone, after i steps: it takes the mutex, finds too little bread, releases the
  // mutex and is not done.
  function Spinning(makers: nat, total: int, size: int, boxes: int, i: nat): State {
    var pc := if i % 4 == 0 then Lock else if i % 4 == 1 then Test else if i % 4 == 2 then Unlock else ExitTest;
    var s := Init(makers, total, size, boxes);
    s.(owner := if pc == Test || pc == Unlock then Some(makers) else None,
       workers := s.workers[makers := Worker(true, pc, i / 4)])
  }

  lemma SpinStep(makers: nat, total: int, size: int, boxes: int, i: nat)
    requires 1 <= makers && 1 <= size && 1 <= boxes && 0 <= total
    ensures var s := Spinning(makers, total, size, boxes, i);
            && Enabled(s, makers) && Step(s, makers) == Spinning(makers, total, size, boxes, i + 1)
            && !AllExited(s) && s.bread == 0
  {
    var s, s' := Spinning(makers, total, size, boxes, i), Spinning(makers, total, size, boxes, i + 1);
    assert s.workers[makers].pc != Exited;
    assert s'.workers == s.workers[makers := s'.workers[makers]];
  }

  /** Left to itself the boxer waits busily for ever: an infinite run of the program in which no
      other thread takes a step and nothing ever ends, however much bread is ordered. */
  lemma BoxerSpins(makers: nat, total: int, size: int, boxes: int) returns (r: nat -> State, who: nat -> nat)
    requires 1 <= makers && 1 <= size && 1 <= boxes && 0 <= total
    ensures r(0) == Init(makers, total, size, boxes) && IsInfiniteRun(r, who)
    ensures forall i: nat :: who(i) == makers && !AllExited(r(i)) && r(i).bread == 0
  {
    r := (i: nat) => Spinning(makers, total, size, boxes, i);
    who := (i: nat) => makers;
    InitKeeps(makers, total, size, boxes);
    assert r(0).workers == Init(makers, total, size, boxes).workers;
    hide Spinning, Step, Enabled, AllExited;
    forall i: nat
      ensures Moves(r, who, i) && !AllExited(r(i)) && r(i).bread == 0
    {
      SpinStep(makers, total, size, boxes, i);
    }
  }

  /** An infinite run of the program comes to its end if and only if it is strongly fair and the
      bread ordered fills all boxes. */
  lemma EndsIffFairAndEnough(makers: nat, total: int, size: int, boxes: int, r: nat -> State, who: nat -> nat)
    requires 1 <= makers && 1 <= size && 1 <= boxes && 0 <= total
    requires r(0) == Init(makers, total, size, boxes) && IsInfiniteRun(r, who)
    ensures (exists i: nat :: AllExited(r(i))) <==> StronglyFair(r, who) && size * boxes <= total
  {
    if i: nat :| AllExited(r(i)) {
      EndedIsFair(r, who, i);
      RunFrom(r, who, 0, i);
      if total < size * boxes {
        TooLittleBread(makers, total, size, boxes, r(i));
        assert false;
      }
    }
    if StronglyFair(r, who) && size * boxes <= total {
      FairRunsEnd(makers, total, size, boxes, r, who);
    }
  }

  /** The factory in place. */
  class Factory {
    const total: int
    const size: int
    const boxes: int
    var bread: int
    var box: int
    var owner: Option<nat>
    const workers: array<Worker>

    ghost function View(): State
      reads this, workers
    {
      State(total, size, boxes, bread, box, owner, workers[..])
    }

    constructor (makers: nat, total: int, size: int, boxes: int)
      ensures View() == Init(makers, total, size, boxes) && fresh(workers)
    {
      this.total, this.size, this.boxes := total, size, boxes;
      bread, box, owner := 0, 0, None;
      workers := new Worker[makers + 1](i => Worker(i == makers, Lock, 0));
    }

    method Goto(t: nat, pc: Pc)
      requires t < workers.Length
      modifies workers
      ensures workers[..] == old(workers[..])[t := old(workers[t]).(pc := pc)]
    {
      workers[t] := workers[t].(pc := pc);
    }

    method TestWork(boxer: bool) returns (work: bool)
      ensures work == HasWork(View(), boxer)
    {
      if boxer {
        work := bread - box * size >= size;
      } else {
        work := bread < total;
      }
    }

    // One statement of thread t. False, and nothing changed, when it blocks or has left.
    method Advance(t: nat) returns (moved: bool)
      modifies this, workers
      ensures moved == old(Enabled(View(), t))
      ensures View() == if moved then old(Step(View(), t)) else old(View())
    {
      if t >= workers.Length {
        return false;
      }
      var boxer := workers[t].boxer;
      match workers[t].pc {
      case Lock =>
        if owner.Some? {
          return false;
        }
        owner := Some(t);
        Goto(t, Test);
      case Test =>
        var work := TestWork(boxer);
        Goto(t, if work then Load else Unlock);
      case Load =>
        Goto(t, Store(if boxer then box else bread));
      case Store(temp) =>
        if boxer {
          box := temp + 1;
        } else {
          bread := temp + 1;
        }
        Goto(t, Unlock);
      case Unlock =>
        owner := None;
        Goto(t, ExitTest);
      case ExitTest =>
        if (boxer && box == boxes) || (!boxer && bread >= total) {
          Goto(t, Exited);
        } else {
          workers[t] := Worker(boxer, Lock, workers[t].laps + 1);
        }
      case Exited =>
        return false;
      }
      return true;
    }

    // Run under a given schedule; a scheduled thread that blocks loses its turn.
    method Run(schedule: seq<nat>) returns (ghost run: seq<State>)
      modifies this, workers
      ensures Runs.Plays(Turn, run, schedule) && run[0] == old(View()) && run[|schedule|] == View()
      ensures Runs.Reachable(Next, old(View()), View())
    {
      run := [View()];
      for i := 0 to |schedule|
        invariant Runs.Plays(Turn, run, schedule[..i]) && run[0] == old(View()) && run[i] == View()
      {
        var moved := Advance(schedule[i]);
        Runs.PlayOne(Turn, run, schedule[..i], schedule[i], View());
        assert schedule[..i + 1] == schedule[..i] + [schedule[i]];
        run := run + [View()];
      }
      assert schedule[..|schedule|] == schedule;
      Runs.PlayReaches(Next, Turn, run, schedule);
    }
  }

  /** main with the numbers of the source, under any schedule: boxes never run ahead of bread,
      and once boxer and a maker have left everything is made and boxed. */
  method BreadMain(schedule: seq<nat>) returns (bread: int, box: int, makerLeft: bool, boxerLeft: bool)
    ensures 0 <= 10 * box <= bread <= 100
    ensures makerLeft ==> bread == 100
    ensures boxerLeft ==> box == 10 && bread == 100
  {
    var f := new Factory(2, 100, 10, 10);
    InitKeeps(2, 100, 10, 10);
    ghost var run := f.Run(schedule);
    ReachableIsLater(Init(2, 100, 10, 10), f.View());
    assert WorkerOk(f.View(), 0) && WorkerOk(f.View(), 2);
    bread, box := f.bread, f.box;
    makerLeft, boxerLeft := f.workers[0].pc == Exited, f.workers[2].pc == Exited;
  }
}
