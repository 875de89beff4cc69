/** EX03-08: any number of processes that write a byte to a shared file, read it back and
  compare, all while holding a semaphore taken with SEM_UNDO.

  Every system call can fail; the process then returns at once and the kernel gives back what
  it holds. The loop count (50 in the source) is a parameter.
 */
module FileCounter {
  import opened Sums
  import opened SysVSemaphore
  import Runs

  // Mismatch: the branch that reports a byte different from the one written.
  datatype Pc = Top | Take | Write | Read | Compare | Give | Mismatch | Done | Failed

  // wrote counts the bytes the process has written.
  datatype Process = Process(pc: Pc, i: nat, c1: int, c2: int, wrote: nat)

  datatype State = State(loops: nat, file: int, sem: Semaphore, procs: seq<Process>)

  // Run(p): the next statement of p succeeds.  Fail(p): a system call on the way returns -1: at
  // Read also the close of the file written, at Compare the close of the file read. The test after
  // each open looks at the wrong variable, so a failed open shows at the write or read after it.
  datatype Action = Run(p: nat) | Fail(p: nat)

  // `char` arithmetic: the letter reached after i increments of 'A'.
  function Letter(i: int): int {
    (65 + i) % 256
  }

  predicate Ended(pc: Pc) {
    pc == Done || pc == Failed
  }

  predicate Enabled(s: State, a: Action) {
    && a.p < |s.procs| && a.p < |s.sem.adjust|
    && var pc := s.procs[a.p].pc;
       match a
       case Run(_) => !Ended(pc) && (pc == Take ==> CanTake(s.sem))
       case Fail(_) => pc == Take || pc == Write || pc == Read || pc == Compare || pc == Give
  }

  function Put(s: State, p: nat, x: Process): State
    requires p < |s.procs|
  {
    s.(procs := s.procs[p := x])
  }

  // The process returns from main: the kernel undoes its semaphore operations.
  function Returned(s: State, p: nat, pc: Pc): State
    requires p < |s.procs| && p < |s.sem.adjust|
  {
    Put(s, p, s.procs[p].(pc := pc)).(sem := Undo(s.sem, p))
  }

  function Step(s: State, a: Action): State
    requires Enabled(s, a)
  {
    var p := a.p;
    var x := s.procs[p];
    if a.Fail? then Returned(s, p, Failed)
    else
      match x.pc
      case Top => if x.i < s.loops then Put(s, p, x.(pc := Take)) else Returned(s, p, Done)
      case Take => Put(s, p, x.(pc := Write)).(sem := SysVSemaphore.Take(s.sem, p))
      case Write => Put(s, p, x.(pc := Read, wrote := x.wrote + 1)).(file := x.c1)
      case Read => Put(s, p, x.(pc := Compare, c2 := s.file))
      case Compare => Put(s, p, x.(pc := if x.c1 != x.c2 then Mismatch else Give))
      case Give =>
        Put(s, p, x.(pc := Top, i := x.i + 1, c1 := (x.c1 + 1) % 256)).(sem := SysVSemaphore.Give(s.sem, p))
      case Mismatch => Returned(s, p, Failed)
      case _ => s
  }

  ghost predicate Next(s: State, s': State) {
    exists a: Action :: Enabled(s, a) && s' == Step(s, a)
  }

  // What comes of an entry of a script.
  ghost predicate Turn(s: State, a: Action, s': State) {
    s' == if Enabled(s, a) then Step(s, a) else s
  }

  function Init(processes: nat, loops: nat, file: int): State {
    State(loops, file, Fresh(processes), seq(processes, _ => Process(Top, 0, 65, 0, 0)))
  }

  predicate Holding(pc: Pc) {
    pc == Write || pc == Read || pc == Compare || pc == Give || pc == Mismatch
  }

  predicate Inside(x: Process) {
    Holding(x.pc)
  }

  function Holds(s: State): (holds: seq<bool>)
    ensures |holds| == |s.procs| && forall p :: 0 <= p < |holds| ==> holds[p] == Holding(s.procs[p].pc)
  {
    Insiders(s.procs, Inside)
  }

  ghost predicate ProcessOk(s: State, x: Process) {
    && x.pc != Mismatch
    && (x.pc == Read || x.pc == Compare || x.pc == Give ==> s.file == x.c1)
    && (x.pc == Compare || x.pc == Give ==> x.c2 == x.c1)
    && (x.pc != Failed ==>
          && x.c1 == Letter(x.i)
          && x.wrote == x.i + (if x.pc == Read || x.pc == Compare || x.pc == Give then 1 else 0))
    && x.i <= s.loops
    && (x.pc == Take || Holding(x.pc) ==> x.i < s.loops)
    && (x.pc == Done ==> x.i == s.loops)
  }

  // The process that wrote last.
  ghost predicate LastWriter(s: State, p: nat) {
    p < |s.procs| && s.procs[p].wrote > 0 && s.file == Letter(s.procs[p].wrote - 1)
  }

  ghost predicate Inv(s: State) {
    && Disciplined(s.sem, Holds(s))
    && (forall p :: 0 <= p < |s.procs| ==> ProcessOk(s, s.procs[p]))
    && ((exists p: nat :: LastWriter(s, p)) || forall p :: 0 <= p < |s.procs| ==> s.procs[p].wrote == 0)
  }

  lemma InitKeeps(processes: nat, loops: nat, file: int)
    ensures Inv(Init(processes, loops, file))
  {
    FreshDisciplined(processes);
    assert Holds(Init(processes, loops, file)) == seq(processes, _ => false);
  }

  lemma StepKeepsSem(s: State, a: Action)
    requires Disciplined(s.sem, Holds(s)) && Enabled(s, a)
    ensures Disciplined(Step(s, a).sem, Holds(Step(s, a)))
  {
    hide Disciplined, ProcessOk, LastWriter, Letter;
    var s', p, h := Step(s, a), a.p, Holds(s);
    assert Holds(s') == h[p := Holding(s'.procs[p].pc)];
    var pc := s.procs[p].pc;
    if a.Fail? || pc == Mismatch || (pc == Top && s.loops <= s.procs[p].i) {
      UndoDisciplined(s.sem, h, p);
    } else if pc == Take {
      TakeDisciplined(s.sem, h, p);
    } else if pc == Give {
      GiveDisciplined(s.sem, h, p);
    } else {
      assert s'.sem == s.sem && Holds(s') == h;
    }
  }

  lemma NextLetter(i: int)
    ensures (Letter(i) + 1) % 256 == Letter(i + 1)
  {
  }

  lemma ActorOk(s: State, a: Action)
    requires Enabled(s, a) && ProcessOk(s, s.procs[a.p])
    ensures ProcessOk(Step(s, a), Step(s, a).procs[a.p])
  {
    NextLetter(s.procs[a.p].i);
    hide Disciplined, Total, Letter, Undo, SysVSemaphore.Take, SysVSemaphore.Give;
  }

  // The file changes only while everybody else is outside.
  lemma OthersOk(s: State, a: Action, q: nat)
    requires Enabled(s, a) && q < |s.procs| && q != a.p && ProcessOk(s, s.procs[q])
    requires s.procs[a.p].pc == Write ==> !Holding(s.procs[q].pc)
    ensures q < |Step(s, a).procs| && ProcessOk(Step(s, a), Step(s, a).procs[q])
  {
  }

  lemma StepKeepsProcesses(s: State, a: Action)
    requires Inv(s) && Enabled(s, a)
    ensures |Step(s, a).procs| == |s.procs|
    ensures forall q :: 0 <= q < |s.procs| ==> ProcessOk(Step(s, a), Step(s, a).procs[q])
  {
    var p := a.p;
    hide ProcessOk, Disciplined;
    ActorOk(s, a);
    if s.procs[p].pc == Write {
      Alone(s.sem, s.procs, Inside, p);
    }
    forall q | 0 <= q < |s.procs|
      ensures ProcessOk(Step(s, a), Step(s, a).procs[q])
    {
      if q != p {
        OthersOk(s, a, q);
      }
    }
  }

  lemma StepKeeps(s: State, a: Action)
    requires Inv(s) && Enabled(s, a)
    ensures Inv(Step(s, a))
  {
    hide Disciplined, Holds;
    var s', p := Step(s, a), a.p;
    StepKeepsSem(s, a);
    StepKeepsProcesses(s, a);
    if a.Run? && s.procs[p].pc == Write {
      WriterIsLast(s, p);
    } else if w: nat :| LastWriter(s, w) {
      assert LastWriter(s', w);
    }
  }

  lemma WriterIsLast(s: State, p: nat)
    requires Enabled(s, Run(p)) && ProcessOk(s, s.procs[p]) && s.procs[p].pc == Write
    ensures LastWriter(Step(s, Run(p)), p)
  {
  }

  lemma InvReachable(processes: nat, loops: nat, file: int, s: State)
    requires Runs.Reachable(Next, Init(processes, loops, file), s)
    ensures Inv(s) && |s.procs| == processes && s.loops == loops
  {
    hide ProcessOk, Disciplined, LastWriter;
    InitKeeps(processes, loops, file);
    var inv := (x: State) => Inv(x) && |x.procs| == processes && x.loops == loops;
    forall x: State, x': State | inv(x) && Next(x, x')
      ensures inv(x')
    {
      var a: Action :| Enabled(x, a) && x' == Step(x, a);
      StepKeeps(x, a);
    }
    Runs.Kept(Next, inv, Init(processes, loops, file), s);
  }

  /** In every interleaving, with any process failing at any of its calls: whoever compares
      sees the byte it wrote, the mismatch branch is never entered, and nobody but the holder
      is inside. */
  lemma ReadsBackItsOwnByte(processes: nat, loops: nat, file: int, s: State, p: nat)
    requires Runs.Reachable(Next, Init(processes, loops, file), s) && p < processes
    ensures |s.procs| == processes && s.procs[p].pc != Mismatch
    ensures s.procs[p].pc == Compare ==> s.procs[p].c2 == s.procs[p].c1 == s.file
    ensures Holding(s.procs[p].pc) ==>
              s.sem.value == 0 && forall q :: 0 <= q < processes && q != p ==> !Holding(s.procs[q].pc)
  {
    InvReachable(processes, loops, file, s);
    assert ProcessOk(s, s.procs[p]);
    if Holding(s.procs[p].pc) {
      Alone(s.sem, s.procs, Inside, p);
    }
  }

  /** Once all processes have finished normally the file shows the last letter of the loop, in
      whatever order they ran. */
  lemma FinalByte(processes: nat, loops: nat, file: int, s: State)
    requires Runs.Reachable(Next, Init(processes, loops, file), s)
    requires forall p :: 0 <= p < |s.procs| ==> s.procs[p].pc == Done
    requires 0 < processes && 0 < loops
    ensures s.file == Letter(loops - 1)
  {
    InvReachable(processes, loops, file, s);
    assert ProcessOk(s, s.procs[0]);
    var w: nat :| LastWriter(s, w);
    assert ProcessOk(s, s.procs[w]);
  }

  // ----- Every run ends -----

  function Rank(pc: Pc): nat {
    match pc
    case Top => 7 case Take => 6 case Write => 5 case Read => 4 case Compare => 3 case Give => 2 case Mismatch => 1
    case Done => 0 case Failed => 0
  }

  function RankOf(x: Process): int {
    Rank(x.pc)
  }

  function Rounds(x: Process): int {
    x.i
  }

  ghost function Measure(s: State): int {
    Sum(RankOf, s.procs) + 6 * (|s.procs| * s.loops - Sum(Rounds, s.procs))
  }

  lemma MeasureNonNegative(s: State)
    requires Inv(s)
    ensures 0 <= Measure(s)
  {
    SumNonNegative(RankOf, s.procs);
    assert forall p :: 0 <= p < |s.procs| ==> ProcessOk(s, s.procs[p]);
    RoundsAtMost(s.procs, s.loops);
  }

  lemma {:induction false} RoundsAtMost(procs: seq<Process>, loops: nat)
    requires forall p :: 0 <= p < |procs| ==> procs[p].i <= loops
    ensures Sum(Rounds, procs) <= |procs| * loops
  {
    if procs != [] {
      RoundsAtMost(procs[1..], loops);
      assert (1 + |procs[1..]|) * loops == loops + |procs[1..]| * loops;
    }
  }

  lemma StepLowers(s: State, a: Action)
    requires Inv(s) && Enabled(s, a)
    ensures 0 <= Measure(Step(s, a)) < Measure(s)
  {
    var s', p := Step(s, a), a.p;
    StepKeeps(s, a);
    MeasureNonNegative(s');
    StepSums(s, a);
  }

  lemma StepSums(s: State, a: Action)
    requires Enabled(s, a)
    ensures Measure(Step(s, a)) < Measure(s)
  {
    var s', p := Step(s, a), a.p;
    assert s'.procs == s.procs[p := s'.procs[p]] && s'.loops == s.loops;
    SumUpdate(RankOf, s.procs, p, s'.procs[p]);
    SumUpdate(Rounds, s.procs, p, s'.procs[p]);
  }

  /** Every run has at most processes * (7 + 6 * loops) steps and can only stop when every
      process has returned: failures never leave the others waiting. */
  lemma {:induction false} RunsEnd(processes: nat, loops: nat, file: int, run: seq<State>)
    requires Runs.IsRun(Next, run) && run[0] == Init(processes, loops, file)
    ensures |run| - 1 <= processes * (7 + 6 * loops)
    ensures var s := run[|run| - 1];
            Runs.Terminal(Next, s) <==> forall p :: 0 <= p < |s.procs| ==> Ended(s.procs[p].pc)
  {
    InitKeeps(processes, loops, file);
    forall x: State, x': State | Inv(x) && Next(x, x')
      ensures Inv(x') && 0 <= Measure(x') < Measure(x)
    {
      var a: Action :| Enabled(x, a) && x' == Step(x, a);
      StepKeeps(x, a);
      StepLowers(x, a);
    }
    Runs.Bounded(Next, Inv, Measure, run);
    InitialMeasure(processes, loops, file);
    var s := run[|run| - 1];
    Runs.KeptAt(Next, Inv, run, |run| - 1);
    TerminalMeansEnded(s);
  }

  lemma InitialMeasure(processes: nat, loops: nat, file: int)
    ensures Measure(Init(processes, loops, file)) == processes * (7 + 6 * loops)
  {
    var s := Init(processes, loops, file);
    SumConstant(RankOf, s.procs, 7);
    SumConstant(Rounds, s.procs, 0);
    assert processes * (7 + 6 * loops) == processes * 7 + 6 * (processes * loops);
  }

  lemma TerminalMeansEnded(s: State)
    requires Inv(s)
    ensures Runs.Terminal(Next, s) <==> forall p :: 0 <= p < |s.procs| ==> Ended(s.procs[p].pc)
  {
    if p: nat :| p < |s.procs| && !Ended(s.procs[p].pc) {
      var q := SomeoneRuns(s, p);
      assert Next(s, Step(s, Run(q)));
    }
  }

  // While one process has not returned one can go on, its calls succeeding.
  lemma SomeoneRuns(s: State, p: nat) returns (q: nat)
    requires Inv(s) && p < |s.procs| && !Ended(s.procs[p].pc)
    ensures q < |s.procs| && Enabled(s, Run(q))
  {
    q := p;
    if !Enabled(s, Run(p)) {
      Exclusive(s.sem, Holds(s));
      q :| 0 <= q < |s.procs| && Holds(s)[q];
    }
  }

  // ----- Under a script -----

  // The turns of all processes, in which their calls succeed.
  ghost function Steps(processes: nat): (all: set<Action>)
    ensures forall a: Action :: a in all <==> a.Run? && a.p < processes
  {
    if processes == 0 then {} else Steps(processes - 1) + {Run(processes - 1)}
  }

  lemma ScriptDescends(processes: nat)
    ensures Runs.Descends(Enabled, Turn, (x: State) => Inv(x) && |x.procs| == processes, Measure, Steps(processes))
  {
    var inv := (x: State) => Inv(x) && |x.procs| == processes;
    hide Inv, Measure, Step;
    forall s: State, a: Action, s': State | inv(s) && Turn(s, a, s')
      ensures inv(s') && if Enabled(s, a) then Measure(s') < Measure(s) else s' == s
    {
      if Enabled(s, a) {
        StepKeeps(s, a);
        StepLowers(s, a);
        SameProcesses(s, a);
      }
    }
    forall s: State, a: Action | inv(s) && Enabled(s, a)
      ensures 0 < Measure(s) && exists b: Action :: b in Steps(processes) && Enabled(s, b)
    {
      StepLowers(s, a);
      var p := SomeoneRuns(s, a.p);
      assert Run(p) in Steps(processes);
    }
  }

  lemma SameProcesses(s: State, a: Action)
    requires Enabled(s, a)
    ensures |Step(s, a).procs| == |s.procs|
  {
  }

  /** A script with enough rounds, whatever else it does or lets fail, has every process return. */
  lemma RoundsEnd(processes: nat, loops: nat, file: int, run: seq<State>, script: seq<Action>, r: nat)
    requires Runs.Plays(Turn, run, script) && run[0] == Init(processes, loops, file)
    requires Runs.HasRounds(script, Steps(processes), r) && processes * (7 + 6 * loops) <= r
    ensures |run[|script|].procs| == processes
    ensures forall p :: 0 <= p < processes ==> Ended(run[|script|].procs[p].pc)
  {
    InitKeeps(processes, loops, file);
    InitialMeasure(processes, loops, file);
    ScriptDescends(processes);
    var inv := (x: State) => Inv(x) && |x.procs| == processes;
    assert inv(run[0]);
    Runs.EnoughRounds(Enabled, Turn, inv, Measure, Steps(processes), run, script, r);
    TerminalMeansEnded(run[|script|]);
  }

  // Nobody gives up while no call fails.
  ghost predicate AllGoOn(s: State) {
    Inv(s) && forall p :: 0 <= p < |s.procs| ==> s.procs[p].pc != Failed
  }

  lemma StepGoesOn(s: State, p: nat)
    requires AllGoOn(s) && Enabled(s, Run(p))
    ensures AllGoOn(Step(s, Run(p)))
  {
    StepKeeps(s, Run(p));
    assert ProcessOk(s, s.procs[p]);
    hide Inv, ProcessOk;
  }

  /** As long as no call fails no process gives up, whatever the others do in between. */
  lemma {:induction false} NobodyFails(processes: nat, loops: nat, file: int, run: seq<State>, script: seq<Action>)
    requires Runs.Plays(Turn, run, script) && run[0] == Init(processes, loops, file)
    requires forall a :: a in script ==> a.Run?
    ensures AllGoOn(run[|script|])
  {
    if script == [] {
      InitKeeps(processes, loops, file);
    } else {
      var n := |script| - 1;
      NobodyFails(processes, loops, file, run[..n + 1], script[..n]);
      assert Turn(run[n], script[n], run[n + 1]);
      if Enabled(run[n], script[n]) {
        StepGoesOn(run[n], script[n].p);
      }
    }
  }

  /** So a script of succeeding calls with enough rounds has every process finish normally. */
  lemma RoundsFinish(processes: nat, loops: nat, file: int, run: seq<State>, script: seq<Action>, r: nat)
    requires Runs.Plays(Turn, run, script) && run[0] == Init(processes, loops, file)
    requires Runs.HasRounds(script, Steps(processes), r) && processes * (7 + 6 * loops) <= r
    requires forall a :: a in script ==> a.Run?
    ensures |run[|script|].procs| == processes
    ensures forall p :: 0 <= p < processes ==> run[|script|].procs[p].pc == Done
  {
    RoundsEnd(processes, loops, file, run, script, r);
    NobodyFails(processes, loops, file, run, script);
  }

  /** A process can fail at each of its calls; it has then returned, the others and the file are
      as they were, and if it held the semaphore that is free again. */
  lemma FailureReleases(s: State, p: nat)
    requires Inv(s) && p < |s.procs|
    requires var pc := s.procs[p].pc; pc == Take || pc == Write || pc == Read || pc == Compare || pc == Give
    ensures Enabled(s, Fail(p))
    ensures var s' := Step(s, Fail(p));
            && s'.sem.value == (if s.procs[p].pc == Take then s.sem.value else 1) && s'.file == s.file
            && s'.procs == s.procs[p := s.procs[p].(pc := Failed)]
  {
    assert Holds(s)[p] == Holding(s.procs[p].pc);
    if Holding(s.procs[p].pc) {
      Alone(s.sem, s.procs, Inside, p);
    }
  }

  /** In any state, a comparison that shows another byte ends the process with a failure. */
  lemma WrongByteFails(s: State, p: nat)
    requires p < |s.procs| == |s.sem.adjust| && s.procs[p].pc == Compare && s.procs[p].c1 != s.procs[p].c2
    ensures Enabled(s, Run(p)) && Enabled(Step(s, Run(p)), Run(p))
    ensures Step(Step(s, Run(p)), Run(p)).procs[p].pc == Failed
  {
  }

  /** The processes in place: the file, the kernel's semaphore and the variables of each main. */
  class Host {
    const loops: nat
    var file: int
    var value: int
    const adjust: array<int>
    const procs: array<Process>

    ghost function View(): State
      reads this, adjust, procs
    {
      State(loops, file, Semaphore(value, adjust[..]), procs[..])
    }

    ghost predicate Valid()
      reads this
    {
      adjust.Length == procs.Length
    }

    constructor (processes: nat, loops: nat, file: int)
      ensures View() == Init(processes, loops, file) && Valid() && fresh(adjust) && fresh(procs)
    {
      this.loops, this.file, value := loops, file, 1;
      adjust := new int[processes](_ => 0);
      procs := new Process[processes](_ => Process(Top, 0, 65, 0, 0));
    }

    method Goto(p: nat, pc: Pc)
      requires p < procs.Length
      modifies procs
      ensures procs[..] == old(procs[..])[p := old(procs[p]).(pc := pc)]
    {
      procs[p] := procs[p].(pc := pc);
    }

    method SemOp(p: nat, delta: int)
      requires p < adjust.Length
      modifies this`value, adjust
      ensures value == old(value) + delta
      ensures adjust[..] == old(adjust[..])[p := old(adjust[p]) - delta]
    {
      value := value + delta;
      adjust[p] := adjust[p] - delta;
    }

    method Exit(p: nat, pc: Pc)
      requires Valid() && p < procs.Length
      modifies this`value, adjust, procs
      ensures View() == old(Returned(View(), p, pc))
    {
      Goto(p, pc);
      SemOp(p, adjust[p]);
    }

    // One action. False, and nothing changed, when it is not possible.
    method Advance(a: Action) returns (moved: bool)
      requires Valid()
      modifies this, adjust, procs
      ensures moved == old(Enabled(View(), a))
      ensures View() == if moved then old(Step(View(), a)) else old(View())
    {
      var p := a.p;
      if p >= procs.Length {
        return false;
      }
      var x := procs[p];
      if a.Fail? {
        if x.pc == Take || x.pc == Write || x.pc == Read || x.pc == Compare || x.pc == Give {
          Exit(p, Failed);
          return true;
        }
        return false;
      }
      match x.pc {
      case Top =>
        if x.i < loops {
          Goto(p, Take);
        } else {
          Exit(p, Done);
        }
      case Take =>
        if value <= 0 {
          return false;
        }
        SemOp(p, -1);
        Goto(p, Write);
      case Write =>
        file := x.c1;
        procs[p] := x.(pc := Read, wrote := x.wrote + 1);
      case Read =>
        procs[p] := x.(pc := Compare, c2 := file);
      case Compare =>
        Goto(p, if x.c1 != x.c2 then Mismatch else Give);
      case Give =>
        SemOp(p, 1);
        procs[p] := x.(pc := Top, i := x.i + 1, c1 := (x.c1 + 1) % 256);
      case Mismatch =>
        Exit(p, Failed);
      case _ =>
        return false;
      }
      return true;
    }

    // Any script of actions; those that are not possible are passed over.
    method Play(script: seq<Action>) returns (ghost run: seq<State>)
      requires Valid()
      modifies this, adjust, procs
      ensures Runs.Plays(Turn, run, script) && run[0] == old(View()) && run[|script|] == View()
      ensures Runs.Reachable(Next, old(View()), View())
    {
      run := [View()];
      for i := 0 to |script|
        invariant Runs.Plays(Turn, run, script[..i]) && run[0] == old(View()) && run[i] == View()
      {
        var moved := Advance(script[i]);
        Runs.PlayOne(Turn, run, script[..i], script[i], View());
        assert script[..i + 1] == script[..i] + [script[i]];
        run := run + [View()];
      }
      assert script[..|script|] == script;
      Runs.PlayReaches(Next, Turn, run, script);
    }

    method AllDone() returns (b: bool)
      ensures b == forall p :: 0 <= p < |View().procs| ==> View().procs[p].pc == Done
    {
      for p := 0 to procs.Length
        invariant forall q :: 0 <= q < p ==> procs[q].pc == Done
      {
        if procs[p].pc != Done {
          assert View().procs[p].pc != Done;
          return false;
        }
      }
      return true;
    }
  }

  /** The program with its 50 rounds, any number of times at once: any script with enough rounds
      of all processes, and no failing call, has all finish, and then the file holds an 'r'. */
  method RwMain(processes: nat, file: int, script: seq<Action>) returns (byte: int, allDone: bool)
    requires 0 < processes
    ensures Runs.HasRounds(script, Steps(processes), processes * 307) && (forall a :: a in script ==> a.Run?) ==>
              allDone
    ensures allDone ==> byte == 'r' as int
  {
    var h := new Host(processes, 50, file);
    ghost var run := h.Play(script);
    allDone := h.AllDone();
    byte := h.file;
    if Runs.HasRounds(script, Steps(processes), processes * 307) && forall a :: a in script ==> a.Run? {
      RoundsFinish(processes, 50, file, run, script, processes * 307);
    }
    if allDone {
      FinalByte(processes, 50, file, h.View());
    }
  }
}
