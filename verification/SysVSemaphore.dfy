/** A System V semaphore used as EX03-08 and EX03-10 use it: operations of -1 and +1 with
  SEM_UNDO, so that each process has an adjustment that is added to the value when the
  process exits.

  Here, too: the discipline by which any number of processes exclude each other, and what it
  guarantees. See semop() in the System Interfaces volume of POSIX.1-2017.
 */
module SysVSemaphore {
  import opened Sums

  datatype Semaphore = Semaphore(value: int, adjust: seq<int>)

  // semctl SETVAL 1, before any process has used the semaphore.
  function Fresh(processes: nat): Semaphore {
    Semaphore(1, seq(processes, _ => 0))
  }

  // semop -1 blocks on 0.
  predicate CanTake(s: Semaphore) {
    s.value > 0
  }

  function Take(s: Semaphore, p: nat): Semaphore
    requires p < |s.adjust|
  {
    Semaphore(s.value - 1, s.adjust[p := s.adjust[p] + 1])
  }

  function Give(s: Semaphore, p: nat): Semaphore
    requires p < |s.adjust|
  {
    Semaphore(s.value + 1, s.adjust[p := s.adjust[p] - 1])
  }

  // Process exit: the adjustment is undone.
  function Undo(s: Semaphore, p: nat): Semaphore
    requires p < |s.adjust|
  {
    Semaphore(s.value + s.adjust[p], s.adjust[p := 0])
  }

  ghost function Total(s: Semaphore): int {
    s.value + Sum(Identity, s.adjust)
  }

  lemma Conserved(s: Semaphore, p: nat)
    requires p < |s.adjust|
    ensures Total(Take(s, p)) == Total(s)
    ensures Total(Give(s, p)) == Total(s)
    ensures Total(Undo(s, p)) == Total(s)
  {
    SumUpdate(Identity, s.adjust, p, s.adjust[p] + 1);
    SumUpdate(Identity, s.adjust, p, s.adjust[p] - 1);
    SumUpdate(Identity, s.adjust, p, 0);
  }

  // The processes in `holds` are the ones between taking and giving back.
  ghost predicate Disciplined(s: Semaphore, holds: seq<bool>) {
    && |s.adjust| == |holds|
    && Total(s) == 1 && 0 <= s.value
    && forall p :: 0 <= p < |holds| ==> s.adjust[p] == if holds[p] then 1 else 0
  }

  lemma FreshDisciplined(processes: nat)
    ensures Disciplined(Fresh(processes), seq(processes, _ => false))
  {
    SumConstant(Identity, Fresh(processes).adjust, 0);
  }

  /** Value and adjustments always add up to 1, so the semaphore is free exactly when nobody
      holds it, and never do two processes hold it. */
  lemma Exclusive(s: Semaphore, holds: seq<bool>)
    requires Disciplined(s, holds)
    ensures s.value == 0 || s.value == 1
    ensures s.value == 1 <==> forall p :: 0 <= p < |holds| ==> !holds[p]
    ensures forall p, q :: 0 <= p < |holds| && 0 <= q < |holds| && holds[p] && holds[q] ==> p == q
  {
    SumNonNegative(Identity, s.adjust);
    if forall p :: 0 <= p < |holds| ==> !holds[p] {
      SumConstant(Identity, s.adjust, 0);
    }
    forall p, q | 0 <= p < |holds| && 0 <= q < |holds| && holds[p] && holds[q]
      ensures p == q
    {
      if p < q {
        SumPair(Identity, s.adjust, p, q);
      } else if q < p {
        SumPair(Identity, s.adjust, q, p);
      }
    }
  }

  lemma TakeDisciplined(s: Semaphore, holds: seq<bool>, p: nat)
    requires Disciplined(s, holds) && p < |holds| && !holds[p] && CanTake(s)
    ensures Disciplined(Take(s, p), holds[p := true])
  {
    Conserved(s, p);
  }

  lemma GiveDisciplined(s: Semaphore, holds: seq<bool>, p: nat)
    requires Disciplined(s, holds) && p < |holds| && holds[p]
    ensures Disciplined(Give(s, p), holds[p := false])
  {
    Conserved(s, p);
  }

  lemma UndoDisciplined(s: Semaphore, holds: seq<bool>, p: nat)
    requires Disciplined(s, holds) && p < |holds|
    ensures Disciplined(Undo(s, p), holds[p := false])
  {
    Conserved(s, p);
  }

  // ----- Among processes of any kind -----

  // Which of the processes are inside, between taking and giving back.
  function Insiders<P>(procs: seq<P>, inside: P -> bool): seq<bool> {
    seq(|procs|, p requires 0 <= p < |procs| => inside(procs[p]))
  }

  /** Whoever holds the semaphore is alone. */
  lemma Alone<P>(s: Semaphore, procs: seq<P>, inside: P -> bool, p: nat)
    requires Disciplined(s, Insiders(procs, inside)) && p < |procs| && inside(procs[p])
    ensures s.value == 0
    ensures forall q :: 0 <= q < |procs| && q != p ==> !inside(procs[q])
  {
    var holds := Insiders(procs, inside);
    Exclusive(s, holds);
    assert holds[p];
    forall q | 0 <= q < |procs| && q != p
      ensures !inside(procs[q])
    {
      assert holds[q] == inside(procs[q]);
    }
  }
}
