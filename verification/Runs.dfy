/** Finite runs of a transition relation, and what every run keeps.

  Each program of the repository that has several threads or processes is a relation
  `next` on a datatype of states, one step per shared access. A run is the sequence of
  states it passes through.
 */
module Runs {

  ghost predicate StepAt<S(!new)>(next: (S, S) -> bool, run: seq<S>, i: nat)
    requires i + 1 < |run|
  {
    next(run[i], run[i + 1])
  }

  ghost predicate IsRun<S(!new)>(next: (S, S) -> bool, run: seq<S>) {
    |run| > 0 && forall i: nat :: i + 1 < |run| ==> StepAt(next, run, i)
  }

  ghost predicate IsRunFromTo<S(!new)>(next: (S, S) -> bool, run: seq<S>, a: S, b: S) {
    IsRun(next, run) && run[0] == a && run[|run| - 1] == b
  }

  ghost predicate Reachable<S(!new)>(next: (S, S) -> bool, a: S, b: S) {
    exists run: seq<S> :: IsRunFromTo(next, run, a, b)
  }

  /** No step leaves `s`: a run that arrives here is maximal. */
  ghost predicate Terminal<S(!new)>(next: (S, S) -> bool, s: S) {
    forall s': S :: !next(s, s')
  }

  // A property kept by every step.
  ghost predicate Inductive<S(!new)>(next: (S, S) -> bool, inv: S -> bool) {
    forall s: S, s': S :: inv(s) && next(s, s') ==> inv(s')
  }

  // A measure that every step from a state with the invariant lowers.
  ghost predicate Decreasing<S(!new)>(next: (S, S) -> bool, inv: S -> bool, measure: S -> int) {
    forall s: S, s': S :: inv(s) && next(s, s') ==> 0 <= measure(s') < measure(s)
  }

  lemma Stay<S(!new)>(next: (S, S) -> bool, a: S)
    ensures Reachable(next, a, a)
  {
    assert IsRunFromTo(next, [a], a, a);
  }

  lemma Step<S(!new)>(next: (S, S) -> bool, a: S, b: S)
    requires next(a, b)
    ensures Reachable(next, a, b)
  {
    assert StepAt(next, [a, b], 0);
    assert IsRunFromTo(next, [a, b], a, b);
  }

  lemma Then<S(!new)>(next: (S, S) -> bool, a: S, b: S, c: S)
    requires Reachable(next, a, b) && Reachable(next, b, c)
    ensures Reachable(next, a, c)
  {
    var r: seq<S> :| IsRunFromTo(next, r, a, b);
    var q: seq<S> :| IsRunFromTo(next, q, b, c);
    var run := r + q[1..];
    forall i: nat | i + 1 < |run|
      ensures StepAt(next, run, i)
    {
      if i + 1 < |r| {
        assert StepAt(next, r, i);
      } else {
        assert StepAt(next, q, i + 1 - |r|);
      }
    }
    assert IsRunFromTo(next, run, a, c);
  }

  lemma ThenStep<S(!new)>(next: (S, S) -> bool, a: S, b: S, c: S)
    requires Reachable(next, a, b) && next(b, c)
    ensures Reachable(next, a, c)
  {
    Step(next, b, c);
    Then(next, a, b, c);
  }

  /** What every step keeps holds all along every run. */
  lemma {:induction false} KeptAt<S(!new)>(next: (S, S) -> bool, inv: S -> bool, run: seq<S>, i: nat)
    requires IsRun(next, run) && i < |run|
    requires inv(run[0]) && Inductive(next, inv)
    ensures inv(run[i])
  {
    if i > 0 {
      KeptAt(next, inv, run, i - 1);
      assert StepAt(next, run, i - 1);
    }
  }

  lemma Kept<S(!new)>(next: (S, S) -> bool, inv: S -> bool, a: S, b: S)
    requires Reachable(next, a, b)
    requires inv(a) && Inductive(next, inv)
    ensures inv(b)
  {
    var run: seq<S> :| IsRunFromTo(next, run, a, b);
    KeptAt(next, inv, run, |run| - 1);
  }

  /** A decreasing measure bounds the length of every run. */
  lemma {:induction false} Bounded<S(!new)>(next: (S, S) -> bool, inv: S -> bool, measure: S -> int, run: seq<S>)
    requires IsRun(next, run)
    requires inv(run[0]) && Inductive(next, inv) && Decreasing(next, inv, measure)
    ensures |run| > 1 ==> 0 <= measure(run[|run| - 1])
    ensures |run| - 1 <= measure(run[0]) - measure(run[|run| - 1])
  {
    var n := |run| - 1;
    if n > 0 {
      var shorter := run[..n];
      forall i: nat | i + 1 < |shorter|
        ensures StepAt(next, shorter, i)
      {
        assert StepAt(next, run, i);
      }
      Bounded(next, inv, measure, shorter);
      KeptAt(next, inv, run, n - 1);
      assert StepAt(next, run, n - 1);
    }
  }

  lemma {:induction false} Counted<S(!new)>(next: (S, S) -> bool, inv: S -> bool, measure: S -> int, run: seq<S>)
    requires IsRun(next, run)
    requires inv(run[0]) && Inductive(next, inv)
    requires forall s: S, s': S :: inv(s) && next(s, s') ==> measure(s') == measure(s) - 1
    ensures |run| - 1 == measure(run[0]) - measure(run[|run| - 1])
  {
    var n := |run| - 1;
    if n > 0 {
      var shorter := run[..n];
      forall i: nat | i + 1 < |shorter|
        ensures StepAt(next, shorter, i)
      {
        assert StepAt(next, run, i);
      }
      Counted(next, inv, measure, shorter);
      KeptAt(next, inv, run, n - 1);
      assert StepAt(next, run, n - 1);
    }
  }

  /** When only states of one kind have no successor, every run can be continued to such a
      state: with a decreasing measure, maximal runs exist from everywhere and are finite. */
  lemma {:induction false} CanFinish<S(!new)>(next: (S, S) -> bool, inv: S -> bool, measure: S -> int, a: S)
    returns (b: S)
    requires inv(a) && Inductive(next, inv) && Decreasing(next, inv, measure)
    ensures Reachable(next, a, b) && Terminal(next, b)
    decreases measure(a)
  {
    if Terminal(next, a) {
      Stay(next, a);
      b := a;
    } else {
      var m: S :| next(a, m);
      b := CanFinish(next, inv, measure, m);
      Step(next, a, m);
      Then(next, a, m, b);
    }
  }

  /** Every step of a run of `next` is a step or a stutter of the abstract relation. */
  ghost predicate Simulates<S(!new), A(!new)>(next: (S, S) -> bool, inv: S -> bool, abs: S -> A,
                                              absNext: (A, A) -> bool) {
    forall s: S, s': S :: inv(s) && next(s, s') ==> abs(s') == abs(s) || absNext(abs(s), abs(s'))
  }

  /** What a run shows of the abstract system: its image, with a state that looks like the one
      before it left out. */
  ghost function Shown<S, A>(abs: S -> A, run: seq<S>): (shown: seq<A>)
    requires |run| > 0
    ensures |shown| > 0 && shown[0] == abs(run[0]) && shown[|shown| - 1] == abs(run[|run| - 1])
    decreases |run|
  {
    var n := |run| - 1;
    if n == 0 then [abs(run[0])]
    else Shown(abs, run[..n]) + if abs(run[n]) == abs(run[n - 1]) then [] else [abs(run[n])]
  }

  /** Refinement: the image of a run, stutters dropped, is a run of the abstract system. */
  lemma {:induction false} Refines<S(!new), A(!new)>(next: (S, S) -> bool, inv: S -> bool, abs: S -> A,
                                                     absNext: (A, A) -> bool, run: seq<S>)
    requires IsRun(next, run)
    requires inv(run[0]) && Inductive(next, inv) && Simulates(next, inv, abs, absNext)
    ensures IsRun(absNext, Shown(abs, run))
    ensures Reachable(absNext, abs(run[0]), abs(run[|run| - 1]))
  {
    var n := |run| - 1;
    var shown := Shown(abs, run);
    if n > 0 {
      var shorter := run[..n];
      forall i: nat | i + 1 < |shorter|
        ensures StepAt(next, shorter, i)
      {
        assert StepAt(next, run, i);
      }
      Refines(next, inv, abs, absNext, shorter);
      KeptAt(next, inv, run, n - 1);
      assert StepAt(next, run, n - 1);
      var before := Shown(abs, shorter);
      forall i: nat | i + 1 < |shown|
        ensures StepAt(absNext, shown, i)
      {
        if i + 1 < |before| {
          assert StepAt(absNext, before, i);
        }
      }
    }
    assert IsRunFromTo(absNext, shown, abs(run[0]), abs(run[n]));
  }

  // ----- Runs under a script -----

  // What comes of each entry of a script, whether it is a thread's turn or an action: `turn`
  // relates the state before, the entry and the state after.
  ghost predicate Plays<S(!new), A(!new)>(turn: (S, A, S) -> bool, run: seq<S>, script: seq<A>) {
    |run| == |script| + 1 && forall i :: 0 <= i < |script| ==> turn(run[i], script[i], run[i + 1])
  }

  // An entry of the script is a step or changes nothing.
  ghost predicate StepsOrStays<S(!new), A(!new)>(next: (S, S) -> bool, turn: (S, A, S) -> bool) {
    forall s: S, a: A, s': S :: turn(s, a, s') ==> s' == s || next(s, s')
  }

  lemma {:induction false} PlayReaches<S(!new), A(!new)>(next: (S, S) -> bool, turn: (S, A, S) -> bool, run: seq<S>,
                                                         script: seq<A>)
    requires Plays(turn, run, script) && StepsOrStays(next, turn)
    ensures Reachable(next, run[0], run[|script|])
  {
    if script == [] {
      Stay(next, run[0]);
    } else {
      var n := |script| - 1;
      PlayReaches(next, turn, run[..n + 1], script[..n]);
      assert turn(run[n], script[n], run[n + 1]);
      if run[n + 1] != run[n] {
        ThenStep(next, run[0], run[n], run[n + 1]);
      }
    }
  }

  /** When every step is some entry's, every run is the run of a script. */
  lemma {:induction false} Scripted<S(!new), A(!new)>(next: (S, S) -> bool, turn: (S, A, S) -> bool, run: seq<S>)
    returns (script: seq<A>)
    requires IsRun(next, run) && forall s: S, s': S :: next(s, s') ==> exists a: A :: turn(s, a, s')
    ensures Plays(turn, run, script)
  {
    var n := |run| - 1;
    if n == 0 {
      script := [];
    } else {
      var shorter := run[..n];
      forall i: nat | i + 1 < |shorter|
        ensures StepAt(next, shorter, i)
      {
        assert StepAt(next, run, i);
      }
      script := Scripted(next, turn, shorter);
      assert StepAt(next, run, n - 1);
      var a: A :| turn(run[n - 1], a, run[n]);
      PlayOne(turn, shorter, script, a, run[n]);
      script := script + [a];
      assert run == shorter + [run[n]];
    }
  }

  lemma PlayOne<S(!new), A(!new)>(turn: (S, A, S) -> bool, run: seq<S>, script: seq<A>, a: A, s: S)
    requires Plays(turn, run, script) && turn(run[|script|], a, s)
    ensures Plays(turn, run + [s], script + [a])
  {
  }

  // The script contains r rounds, one after the other, and in each every actor has a turn.
  ghost predicate HasRounds<A(!new)>(script: seq<A>, actors: set<A>, r: nat) {
    r == 0 || exists m: nat :: m <= |script| && IsRound(script[..m], actors) && HasRounds(script[m..], actors, r - 1)
  }

  ghost predicate IsRound<A(!new)>(part: seq<A>, actors: set<A>) {
    forall a :: a in actors ==> a in part
  }

  function Below(k: nat): (ids: set<nat>)
    ensures forall i: nat :: i in ids <==> i < k
  {
    if k == 0 then {} else Below(k - 1) + {k - 1}
  }

  // Each possible entry lowers the measure, an impossible one changes nothing, and where no actor
  // can do anything nothing at all is possible.
  ghost predicate Descends<S(!new), A(!new)>(enabled: (S, A) -> bool, turn: (S, A, S) -> bool, inv: S -> bool,
                                             measure: S -> int, actors: set<A>) {
    && (forall s: S, a: A, s': S :: inv(s) && turn(s, a, s') ==>
          inv(s') && if enabled(s, a) then measure(s') < measure(s) else s' == s)
    && (forall s: S, a: A :: inv(s) && enabled(s, a) ==> 0 < measure(s) && exists b: A :: b in actors && enabled(s, b))
  }

  lemma {:induction false} NobodyCan<S(!new), A(!new)>(enabled: (S, A) -> bool, turn: (S, A, S) -> bool,
                                                       inv: S -> bool, measure: S -> int, actors: set<A>,
                                                       run: seq<S>, script: seq<A>)
    requires Plays(turn, run, script) && inv(run[0]) && Descends(enabled, turn, inv, measure, actors)
    ensures inv(run[|script|]) && measure(run[|script|]) <= measure(run[0])
    ensures measure(run[|script|]) == measure(run[0]) ==> run[|script|] == run[0]
    ensures measure(run[|script|]) == measure(run[0]) ==> forall a :: a in script ==> !enabled(run[0], a)
  {
    if script != [] {
      var n := |script| - 1;
      NobodyCan(enabled, turn, inv, measure, actors, run[..n + 1], script[..n]);
      assert turn(run[n], script[n], run[n + 1]);
      assert script == script[..n] + [script[n]];
    }
  }

  lemma {:induction false} RoundLowers<S(!new), A(!new)>(enabled: (S, A) -> bool, turn: (S, A, S) -> bool,
                                                         inv: S -> bool, measure: S -> int, actors: set<A>,
                                                         run: seq<S>, script: seq<A>)
    requires Plays(turn, run, script) && inv(run[0]) && Descends(enabled, turn, inv, measure, actors)
    requires IsRound(script, actors) && exists a :: enabled(run[0], a)
    ensures inv(run[|script|]) && measure(run[|script|]) < measure(run[0])
  {
    var a :| enabled(run[0], a);
    var b: A :| b in actors && enabled(run[0], b);
    NobodyCan(enabled, turn, inv, measure, actors, run, script);
    assert b in script;
  }

  lemma PlaySplit<S(!new), A(!new)>(turn: (S, A, S) -> bool, run: seq<S>, script: seq<A>, m: nat)
    requires Plays(turn, run, script) && m <= |script|
    ensures Plays(turn, run[..m + 1], script[..m]) && Plays(turn, run[m..], script[m..])
    ensures run[..m + 1][0] == run[0] && run[..m + 1][m] == run[m] == run[m..][0]
    ensures run[m..][|script| - m] == run[|script|]
  {
  }

  lemma FirstRound<A(!new)>(script: seq<A>, actors: set<A>, r: nat) returns (m: nat)
    requires HasRounds(script, actors, r) && 0 < r
    ensures m <= |script| && IsRound(script[..m], actors) && HasRounds(script[m..], actors, r - 1)
  {
    m :| m <= |script| && IsRound(script[..m], actors) && HasRounds(script[m..], actors, r - 1);
  }

  // What is left of a run after its first round.
  lemma AfterRound<S(!new), A(!new)>(enabled: (S, A) -> bool, turn: (S, A, S) -> bool, inv: S -> bool,
                                     measure: S -> int, actors: set<A>, run: seq<S>, script: seq<A>, r: nat)
    returns (tail: seq<S>, rest: seq<A>)
    requires Plays(turn, run, script) && inv(run[0]) && Descends(enabled, turn, inv, measure, actors)
    requires HasRounds(script, actors, r) && 0 < r && exists a :: enabled(run[0], a)
    ensures Plays(turn, tail, rest) && HasRounds(rest, actors, r - 1)
    ensures |tail| == |rest| + 1 && tail[|rest|] == run[|script|]
    ensures inv(tail[0]) && measure(tail[0]) < measure(run[0])
  {
    var m := FirstRound(script, actors, r);
    hide Descends, IsRound, HasRounds;
    PlaySplit(turn, run, script, m);
    RoundLowers(enabled, turn, inv, measure, actors, run[..m + 1], script[..m]);
    tail, rest := run[m..], script[m..];
  }

  /** With as many rounds as the measure says, a script ends where no actor can do anything. */
  lemma {:induction false} EnoughRounds<S(!new), A(!new)>(enabled: (S, A) -> bool, turn: (S, A, S) -> bool,
                                                          inv: S -> bool, measure: S -> int, actors: set<A>,
                                                          run: seq<S>, script: seq<A>, r: nat)
    requires Plays(turn, run, script) && inv(run[0]) && Descends(enabled, turn, inv, measure, actors)
    requires HasRounds(script, actors, r) && measure(run[0]) <= r
    ensures inv(run[|script|]) && forall a :: !enabled(run[|script|], a)
    decreases r
  {
    assert |run| == |script| + 1;
    assert (exists a :: enabled(run[0], a)) ==> 0 < measure(run[0]);
    hide Plays, Descends, IsRound, HasRounds;
    if exists a :: enabled(run[0], a) {
      var tail, rest := AfterRound(enabled, turn, inv, measure, actors, run, script, r);
      EnoughRounds(enabled, turn, inv, measure, actors, tail, rest, r - 1);
    } else {
      Idle(enabled, turn, inv, measure, actors, run, script);
    }
  }

  lemma {:induction false} Idle<S(!new), A(!new)>(enabled: (S, A) -> bool, turn: (S, A, S) -> bool, inv: S -> bool,
                                                  measure: S -> int, actors: set<A>, run: seq<S>, script: seq<A>)
    requires Plays(turn, run, script) && inv(run[0]) && Descends(enabled, turn, inv, measure, actors)
    requires forall a :: !enabled(run[0], a)
    ensures run[|script|] == run[0]
  {
    if script != [] {
      var n := |script| - 1;
      Idle(enabled, turn, inv, measure, actors, run[..n + 1], script[..n]);
      assert turn(run[n], script[n], run[n + 1]);
    }
  }
}
