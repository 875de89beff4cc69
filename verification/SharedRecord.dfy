/** EX03-10: writers and readers of one record in shared memory, under a semaphore taken with
  SEM_UNDO.

  The record is a status word, a text buffer and a checksum over every byte before it. The
  bytes of the text are written and all bytes summed one at a time; the status word and the
  checksum are each stored and read as one access. A writer that times out, a process whose clock
  call fails, and a reader that finds the record invalid all leave while they hold the
  semaphore.
 */
module SharedRecord {
  import opened SysVSemaphore
  import Runs

  const MAX_BUF := 64
  const TEXT := 4

  // 0xbeafbeaf and 0 as stored by a little-endian machine.
  const STATUS_VALID: seq<int> := [0xaf, 0xbe, 0xaf, 0xbe]
  const STATUS_INVALID: seq<int> := [0, 0, 0, 0]

  // Clock to Invalidate belong to the writer, Status to Mismatch to the reader; the summation
  // loop is the same in both. Leaving: out of the loop, the semaphore still held.
  datatype Pc =
    | Take | Clock | Text(text: seq<int>, k: nat) | Mark | Sum(i: nat, cs: int) | StoreSum(cs: int) | Invalidate
    | Status | Compare(cs: int) | Print | Mismatch
    | Give | Leaving | Exited

  datatype Process = Process(writer: bool, pc: Pc, first: bool, expired: bool)

  // bytes: the record up to the checksum. current: the text last written completely.
  datatype State = State(bytes: seq<int>, cs: int, sem: Semaphore, current: seq<int>, procs: seq<Process>)

  // Go: the next statement, its call succeeding.  Fail: semop or gettimeofday returns -1.
  // Format: the clock gives a time in range, formatted as text.  Expire: it is past the timeout.
  datatype Action = Go(p: nat) | Fail(p: nat) | Format(p: nat, text: seq<int>) | Expire(p: nat)

  predicate IsText(text: seq<int>) {
    |text| < MAX_BUF && forall i :: 0 <= i < |text| ==> 0 < text[i] < 256
  }

  predicate Enabled(s: State, a: Action) {
    && a.p < |s.procs| && a.p < |s.sem.adjust|
    && var x := s.procs[a.p];
       match a
       case Go(_) => x.pc != Exited && x.pc != Clock && (x.pc == Take ==> CanTake(s.sem))
       case Fail(_) => x.pc == Take || x.pc == Clock
       case Format(_, text) => x.pc == Clock && IsText(text)
       case Expire(_) => x.pc == Clock && !x.first
  }

  predicate Valid(bytes: seq<int>) {
    STATUS_VALID <= bytes
  }

  function WithStatus(bytes: seq<int>, status: seq<int>): seq<int>
    requires |bytes| >= 4
  {
    status + bytes[4..]
  }

  function Goto(s: State, p: nat, pc: Pc): State
    requires p < |s.procs|
  {
    s.(procs := s.procs[p := s.procs[p].(pc := pc)])
  }

  function Returned(s: State, p: nat): State
    requires p < |s.procs| && p < |s.sem.adjust|
  {
    Goto(s, p, Exited).(sem := Undo(s.sem, p))
  }

  ghost predicate Shaped(s: State) {
    |s.bytes| >= TEXT + MAX_BUF && forall p :: 0 <= p < |s.procs| && s.procs[p].pc.Text? ==>
      s.procs[p].pc.k <= |s.procs[p].pc.text| < MAX_BUF
  }

  ghost function Step(s: State, a: Action): State
    requires Shaped(s) && Enabled(s, a)
  {
    var p := a.p;
    var x := s.procs[p];
    match a
    case Fail(_) => Returned(s, p)
    case Format(_, text) => s.(procs := s.procs[p := x.(pc := Text(text, 0), first := false)])
    case Expire(_) => Goto(s, p, Invalidate)
    case Go(_) =>
      match x.pc
      case Take => Goto(s, p, if x.writer then Clock else Status).(sem := SysVSemaphore.Take(s.sem, p))
      case Text(text, k) =>
        if k < |text| then Goto(s, p, Text(text, k + 1)).(bytes := s.bytes[TEXT + k := text[k]])
        else Goto(s, p, Mark).(bytes := s.bytes[TEXT + k := 0], current := text)
      case Mark => Goto(s, p, Sum(0, 0)).(bytes := WithStatus(s.bytes, STATUS_VALID))
      case Sum(i, cs) =>
        if i < |s.bytes| then Goto(s, p, Sum(i + 1, cs + s.bytes[i]))
        else Goto(s, p, if x.writer then StoreSum(cs) else Compare(cs))
      case StoreSum(cs) => Goto(s, p, Give).(cs := cs)
      case Invalidate =>
        s.(bytes := WithStatus(s.bytes, STATUS_INVALID), procs := s.procs[p := x.(pc := Leaving, expired := true)])
      case Status => Goto(s, p, if Valid(s.bytes) then Sum(0, 0) else Leaving)
      case Compare(cs) => Goto(s, p, if s.cs != cs then Mismatch else Print)
      case Print => Goto(s, p, Give)
      case Mismatch => Goto(s, p, Leaving)
      case Give => Goto(s, p, Take).(sem := SysVSemaphore.Give(s.sem, p))
      case Leaving => Returned(s, p)
      case _ => s
  }

  ghost predicate Next(s: State, s': State) {
    Shaped(s) && exists a: Action :: Enabled(s, a) && s' == Step(s, a)
  }

  // What comes of an entry of a script.
  ghost predicate Turn(s: State, a: Action, s': State) {
    Shaped(s) && s' == if Enabled(s, a) then Step(s, a) else s
  }

  lemma TurnsAreSteps()
    ensures Runs.StepsOrStays(Next, Turn)
  {
  }

  // A new segment is all zero; roles says which processes are writers.
  function Init(size: nat, roles: seq<bool>): State {
    State(seq(size, _ => 0), 0, Fresh(|roles|), [],
          seq(|roles|, p requires 0 <= p < |roles| => Process(roles[p], Take, true, false)))
  }

  function PrefixSum(bytes: seq<int>, i: nat): int
    requires i <= |bytes|
  {
    if i == 0 then 0 else PrefixSum(bytes, i - 1) + bytes[i - 1]
  }

  function Checksum(bytes: seq<int>): int {
    PrefixSum(bytes, |bytes|)
  }

  // The buffer holds the text as a C string.
  predicate HoldsText(bytes: seq<int>, text: seq<int>) {
    && |text| < MAX_BUF && TEXT + MAX_BUF <= |bytes|
    && bytes[TEXT..TEXT + |text|] == text && bytes[TEXT + |text|] == 0
  }

  predicate Consistent(s: State) {
    Valid(s.bytes) ==> s.cs == Checksum(s.bytes) && HoldsText(s.bytes, s.current)
  }

  predicate Holding(pc: Pc) {
    pc != Take && pc != Exited
  }

  predicate Inside(x: Process) {
    Holding(x.pc)
  }

  function Holds(s: State): (holds: seq<bool>)
    ensures |holds| == |s.procs| && forall p :: 0 <= p < |holds| ==> holds[p] == Holding(s.procs[p].pc)
  {
    Insiders(s.procs, Inside)
  }

  // A writer between its first byte and the checksum.
  predicate Updating(x: Process) {
    x.pc.Text? || x.pc == Mark || (x.writer && x.pc.Sum?) || x.pc.StoreSum?
  }

  predicate Reading(pc: Pc) {
    pc.Sum? || pc.Compare? || pc == Print || pc == Give
  }

  ghost predicate ProcessOk(s: State, x: Process)
    requires |s.bytes| >= TEXT + MAX_BUF
  {
    (x.expired ==> !x.first) &&
    match x.pc
    case Take => true
    case Clock => x.writer
    case Text(text, k) => x.writer && k <= |text| < MAX_BUF && s.bytes[TEXT..TEXT + k] == text[..k]
    case Mark => x.writer && HoldsText(s.bytes, s.current)
    case Sum(i, cs) => Valid(s.bytes) && HoldsText(s.bytes, s.current) && i <= |s.bytes| && cs == PrefixSum(s.bytes, i)
    case StoreSum(cs) => x.writer && Valid(s.bytes) && HoldsText(s.bytes, s.current) && cs == Checksum(s.bytes)
    case Invalidate => x.writer && !x.first
    case Status => !x.writer
    case Compare(cs) => !x.writer && Valid(s.bytes) && cs == Checksum(s.bytes)
    case Print => !x.writer && Valid(s.bytes)
    case Mismatch => false
    case Give => Valid(s.bytes)
    case Leaving => !Valid(s.bytes)
    case Exited => true
  }

  ghost predicate Inv(s: State) {
    && |s.bytes| >= TEXT + MAX_BUF
    && Disciplined(s.sem, Holds(s))
    && (forall p :: 0 <= p < |s.procs| ==> ProcessOk(s, s.procs[p]))
    && ((exists p :: 0 <= p < |s.procs| && Updating(s.procs[p])) || Consistent(s))
  }

  lemma InvIsShaped(s: State)
    requires Inv(s)
    ensures Shaped(s)
  {
    assert forall p :: 0 <= p < |s.procs| ==> ProcessOk(s, s.procs[p]);
  }

  lemma InitKeeps(size: nat, roles: seq<bool>)
    requires size >= TEXT + MAX_BUF
    ensures Inv(Init(size, roles))
  {
    FreshDisciplined(|roles|);
    var s := Init(size, roles);
    assert Holds(s) == seq(|roles|, _ => false);
    assert s.bytes[0] != STATUS_VALID[0];
  }

  lemma HoldsUpdate(s: State, s': State, p: nat)
    requires p < |s.procs| == |s'.procs| && s'.procs == s.procs[p := s'.procs[p]]
    ensures Holds(s') == Holds(s)[p := Holding(s'.procs[p].pc)]
  {
  }

  lemma StepKeepsSem(s: State, a: Action)
    requires Shaped(s) && Disciplined(s.sem, Holds(s)) && Enabled(s, a)
    ensures Disciplined(Step(s, a).sem, Holds(Step(s, a)))
  {
    hide Disciplined, WithStatus, IsText, Valid;
    var s', p, h := Step(s, a), a.p, Holds(s);
    var pc := s.procs[p].pc;
    HoldsUpdate(s, s', p);
    assert |h| == |s.procs|;
    if a.Fail? || (a.Go? && pc == Leaving) {
      UndoDisciplined(s.sem, h, p);
    } else if a.Go? && pc == Take {
      TakeDisciplined(s.sem, h, p);
    } else if a.Go? && pc == Give {
      GiveDisciplined(s.sem, h, p);
    } else {
      assert s'.sem == s.sem && Holds(s') == h;
    }
  }

  // The writer stores one more byte of the text.
  lemma TextStep(s: State, p: nat)
    requires Inv(s) && p < |s.procs| && s.procs[p].pc.Text? && Enabled(s, Go(p))
    ensures ProcessOk(Step(s, Go(p)), Step(s, Go(p)).procs[p]) && Updating(Step(s, Go(p)).procs[p])
  {
    var s', text, k := Step(s, Go(p)), s.procs[p].pc.text, s.procs[p].pc.k;
    assert ProcessOk(s, s.procs[p]);
    if k < |text| {
      assert s'.bytes[TEXT..TEXT + k + 1] == s.bytes[TEXT..TEXT + k] + [text[k]] == text[..k + 1];
    } else {
      assert s'.bytes[TEXT..TEXT + k] == s.bytes[TEXT..TEXT + k] == text;
    }
  }

  lemma MarkStep(s: State, p: nat)
    requires Inv(s) && p < |s.procs| && s.procs[p].pc == Mark && Enabled(s, Go(p))
    ensures ProcessOk(Step(s, Go(p)), Step(s, Go(p)).procs[p]) && Updating(Step(s, Go(p)).procs[p])
  {
    var s', t := Step(s, Go(p)), s.current;
    assert ProcessOk(s, s.procs[p]);
    assert s'.bytes[TEXT..TEXT + |t|] == s.bytes[TEXT..TEXT + |t|];
    assert s'.bytes[TEXT + |t|] == s.bytes[TEXT + |t|];
  }

  lemma SumStep(s: State, p: nat)
    requires Inv(s) && p < |s.procs| && s.procs[p].pc.Sum? && Enabled(s, Go(p))
    ensures ProcessOk(Step(s, Go(p)), Step(s, Go(p)).procs[p])
    ensures s.procs[p].writer ==> Updating(Step(s, Go(p)).procs[p])
  {
    assert ProcessOk(s, s.procs[p]);
    hide Disciplined, Holds;
  }

  // A reader that looks at the record has it to itself, so the record is consistent.
  lemma ReaderStep(s: State, p: nat)
    requires Inv(s) && p < |s.procs| && Enabled(s, Go(p))
    requires s.procs[p].pc == Status || s.procs[p].pc.Compare? || s.procs[p].pc == Print
    ensures ProcessOk(Step(s, Go(p)), Step(s, Go(p)).procs[p])
  {
    assert ProcessOk(s, s.procs[p]);
    Alone(s.sem, s.procs, Inside, p);
    assert Consistent(s);
    hide Disciplined, Holds;
  }

  // The call fails or the clock is read.
  lemma CallStep(s: State, a: Action)
    requires Inv(s) && Enabled(s, a) && !a.Go?
    ensures ProcessOk(Step(s, a), Step(s, a).procs[a.p]) && !Updating(s.procs[a.p])
  {
    assert ProcessOk(s, s.procs[a.p]);
    hide Disciplined, Holds, Undo;
  }

  lemma StoreSumStep(s: State, p: nat)
    requires Inv(s) && p < |s.procs| && s.procs[p].pc.StoreSum? && Enabled(s, Go(p))
    ensures ProcessOk(Step(s, Go(p)), Step(s, Go(p)).procs[p]) && Consistent(Step(s, Go(p)))
  {
    assert ProcessOk(s, s.procs[p]);
    hide Disciplined, Holds;
  }

  // Taking and giving back the semaphore, the timeout store, and leaving.
  lemma PlainStep(s: State, p: nat)
    requires Inv(s) && p < |s.procs| && Enabled(s, Go(p))
    requires var pc := s.procs[p].pc; pc == Take || pc == Give || pc == Invalidate || pc == Leaving
    ensures ProcessOk(Step(s, Go(p)), Step(s, Go(p)).procs[p]) && !Updating(s.procs[p])
  {
    assert ProcessOk(s, s.procs[p]);
    assert STATUS_VALID[0] == 0xaf;
    hide Disciplined, Holds, Undo, SysVSemaphore.Take, SysVSemaphore.Give;
  }

  // What the acting process knows after its step, and what a writer leaves behind.
  lemma ActorStep(s: State, a: Action)
    requires Inv(s) && Enabled(s, a)
    ensures ProcessOk(Step(s, a), Step(s, a).procs[a.p])
    ensures Updating(s.procs[a.p]) ==> Updating(Step(s, a).procs[a.p]) || Consistent(Step(s, a))
  {
    var p := a.p;
    assert ProcessOk(s, s.procs[p]);
    hide Step, Consistent, Disciplined, Holds;
    if !a.Go? {
      CallStep(s, a);
    } else {
      match s.procs[p].pc
      case Text(_, _) => TextStep(s, p);
      case Mark => MarkStep(s, p);
      case Sum(_, _) => SumStep(s, p);
      case StoreSum(_) => StoreSumStep(s, p);
      case Status => ReaderStep(s, p);
      case Compare(_) => ReaderStep(s, p);
      case Print => ReaderStep(s, p);
      case _ => PlainStep(s, p);
    }
  }

  // What it leaves alone.
  lemma Frame(s: State, a: Action)
    requires Shaped(s) && Enabled(s, a)
    ensures var s', x := Step(s, a), s.procs[a.p];
            && |s'.bytes| == |s.bytes| && |s'.procs| == |s.procs|
            && (forall q :: 0 <= q < |s.procs| && q != a.p ==> s'.procs[q] == s.procs[q])
            && s'.procs[a.p].writer == x.writer
            && (!Updating(x) && x.pc != Invalidate ==> s'.bytes == s.bytes && s'.cs == s.cs && s'.current == s.current)
            && (a.Go? && x.pc == Invalidate ==> s'.bytes[0] == 0 && !Updating(s'.procs[a.p]))
  {
  }

  lemma OthersOk(s: State, a: Action, q: nat)
    requires Inv(s) && Enabled(s, a) && q < |s.procs| && q != a.p
    ensures |Step(s, a).procs| == |s.procs| && |Step(s, a).bytes| == |s.bytes|
    ensures ProcessOk(Step(s, a), Step(s, a).procs[q])
  {
    Frame(s, a);
    assert ProcessOk(s, s.procs[q]) && ProcessOk(s, s.procs[a.p]);
    if Holding(s.procs[a.p].pc) {
      Alone(s.sem, s.procs, Inside, a.p);
    }
  }

  lemma StaysConsistent(s: State, a: Action)
    requires Inv(s) && Enabled(s, a)
    requires !Updating(s.procs[a.p])
    ensures var s' := Step(s, a);
            (exists u :: 0 <= u < |s'.procs| && Updating(s'.procs[u])) || Consistent(s')
  {
    var s', p := Step(s, a), a.p;
    Frame(s, a);
    if u :| 0 <= u < |s.procs| && Updating(s.procs[u]) {
      assert Updating(s'.procs[u]);
    } else if s.procs[p].pc == Invalidate {
      assert STATUS_VALID[0] == 0xaf;
    }
  }

  lemma StepKeeps(s: State, a: Action)
    requires Inv(s) && Enabled(s, a)
    ensures Shaped(s) && Inv(Step(s, a))
  {
    var s', p, x := Step(s, a), a.p, s.procs[a.p];
    Frame(s, a);
    StepKeepsSem(s, a);
    ActorStep(s, a);
    forall q | 0 <= q < |s'.procs|
      ensures ProcessOk(s', s'.procs[q])
    {
      if q != p {
        OthersOk(s, a, q);
      }
    }
    if !Updating(x) {
      StaysConsistent(s, a);
    }
  }

  ghost predicate SameRoles(size: nat, roles: seq<bool>, s: State) {
    && |s.bytes| == size && |s.procs| == |roles|
    && forall p :: 0 <= p < |roles| ==> s.procs[p].writer == roles[p]
  }

  lemma NextKeeps(size: nat, roles: seq<bool>, s: State, s': State)
    requires Inv(s) && SameRoles(size, roles, s) && Next(s, s')
    ensures Inv(s') && SameRoles(size, roles, s')
  {
    hide Inv, Step, Enabled;
    var a: Action :| Enabled(s, a) && s' == Step(s, a);
    StepKeeps(s, a);
    Frame(s, a);
  }

  lemma InvReachable(size: nat, roles: seq<bool>, s: State)
    requires size >= TEXT + MAX_BUF && Runs.Reachable(Next, Init(size, roles), s)
    ensures Inv(s) && |s.bytes| == size
    ensures |s.procs| == |roles| && forall p :: 0 <= p < |roles| ==> s.procs[p].writer == roles[p]
  {
    InitKeeps(size, roles);
    hide Inv, Next;
    var inv := (x: State) => Inv(x) && SameRoles(size, roles, x);
    forall x: State, x': State | inv(x) && Next(x, x')
      ensures inv(x')
    {
      NextKeeps(size, roles, x, x');
    }
    Runs.Kept(Next, inv, Init(size, roles), s);
  }

  /** Whenever the semaphore is free, whoever left while holding it, a record marked valid has
      the right checksum and the text its last writer formatted. */
  lemma FreeRecordIsSound(size: nat, roles: seq<bool>, s: State)
    requires size >= TEXT + MAX_BUF && Runs.Reachable(Next, Init(size, roles), s)
    requires s.sem.value == 1
    ensures Valid(s.bytes) ==> s.cs == Checksum(s.bytes) && HoldsText(s.bytes, s.current)
  {
    InvReachable(size, roles, s);
    Exclusive(s.sem, Holds(s));
    forall u | 0 <= u < |s.procs|
      ensures !Updating(s.procs[u])
    {
      assert Holds(s)[u] == Holding(s.procs[u].pc);
      assert ProcessOk(s, s.procs[u]);
    }
  }

  /** The reader never reports a wrong checksum, and what it prints is one complete text. */
  lemma ReadersSeeWholeRecords(size: nat, roles: seq<bool>, s: State, p: nat)
    requires size >= TEXT + MAX_BUF && Runs.Reachable(Next, Init(size, roles), s) && p < |roles|
    ensures |s.procs| == |roles| && s.procs[p].pc != Mismatch
    ensures s.procs[p].pc.Compare? ==> s.procs[p].pc.cs == s.cs
    ensures s.procs[p].pc == Print ==> HoldsText(s.bytes, s.current) && s.cs == Checksum(s.bytes)
  {
    InvReachable(size, roles, s);
    assert ProcessOk(s, s.procs[p]);
    if Holding(s.procs[p].pc) {
      Alone(s.sem, s.procs, Inside, p);
    }
  }

  /** Value and adjustments add up to 1 and at most one process is between taking the semaphore
      and giving it back or leaving. */
  lemma AtMostOneHolder(size: nat, roles: seq<bool>, s: State, p: nat, q: nat)
    requires size >= TEXT + MAX_BUF && Runs.Reachable(Next, Init(size, roles), s)
    ensures Total(s.sem) == 1 && 0 <= s.sem.value <= 1
    ensures p < |s.procs| && q < |s.procs| && Holding(s.procs[p].pc) && Holding(s.procs[q].pc) ==> p == q
  {
    InvReachable(size, roles, s);
    Exclusive(s.sem, Holds(s));
    if p < |s.procs| && Holding(s.procs[p].pc) {
      Alone(s.sem, s.procs, Inside, p);
    }
  }

  // ----- After the timeout of the only writer -----

  ghost predicate OnlyWriter(s: State, w: nat) {
    w < |s.procs| && s.procs[w].writer && forall p :: 0 <= p < |s.procs| && s.procs[p].writer ==> p == w
  }

  // The record is invalid for good, and no reader is past its validity check.
  ghost predicate Over(s: State, w: nat) {
    && OnlyWriter(s, w)
    && (s.procs[w].expired ==>
          && !Valid(s.bytes)
          && (s.procs[w].pc == Leaving || s.procs[w].pc == Exited)
          && forall p :: 0 <= p < |s.procs| ==> !Reading(s.procs[p].pc))
  }

  // The writer's timeout store, made alone.
  lemma InvalidateStartsOver(s: State, p: nat)
    requires Inv(s) && OnlyWriter(s, p) && s.procs[p].pc == Invalidate && Enabled(s, Go(p))
    ensures Shaped(s) && Over(Step(s, Go(p)), p)
  {
    InvIsShaped(s);
    Alone(s.sem, s.procs, Inside, p);
    assert STATUS_VALID[0] == 0xaf;
    hide Disciplined, Holds, Consistent, HoldsText, ProcessOk, Inv;
  }

  // The writer before and after that.
  lemma WriterKeepsOver(s: State, a: Action)
    requires Inv(s) && Over(s, a.p) && Enabled(s, a) && s.procs[a.p].pc != Invalidate
    ensures Shaped(s) && Over(Step(s, a), a.p)
  {
    InvIsShaped(s);
    Frame(s, a);
    hide Disciplined, Holds, Consistent, HoldsText, Undo, SysVSemaphore.Take, SysVSemaphore.Give, ProcessOk, Inv, Valid;
  }

  // Anybody else is a reader, which finds the record invalid.
  lemma ReaderKeepsOver(s: State, a: Action, w: nat)
    requires Inv(s) && Over(s, w) && Enabled(s, a) && a.p != w
    ensures Over(Step(s, a), w)
  {
    Frame(s, a);
    assert ProcessOk(s, s.procs[a.p]);
    hide Disciplined, Holds, Consistent, HoldsText, Undo, SysVSemaphore.Take, SysVSemaphore.Give;
  }

  lemma OnlyGoes(s: State, a: Action)
    requires Enabled(s, a) && s.procs[a.p].pc == Invalidate
    ensures a == Go(a.p)
  {
  }

  lemma StepKeepsOver(s: State, a: Action, w: nat)
    requires Inv(s) && Over(s, w) && Enabled(s, a)
    ensures Over(Step(s, a), w)
  {
    assert OnlyWriter(s, w);
    InvIsShaped(s);
    hide Inv, Over, Enabled, Step;
    if a.p == w && s.procs[w].pc == Invalidate {
      OnlyGoes(s, a);
      InvalidateStartsOver(s, w);
    } else if a.p == w {
      WriterKeepsOver(s, a);
    } else {
      ReaderKeepsOver(s, a, w);
    }
  }

  /** With a single writer, once it has timed out and stored the invalid status no reader gets
      past its validity check any more. */
  lemma NoReaderAfterTimeout(size: nat, roles: seq<bool>, w: nat, s: State)
    requires size >= TEXT + MAX_BUF && Runs.Reachable(Next, Init(size, roles), s)
    requires w < |roles| && roles[w] && forall p :: 0 <= p < |roles| && roles[p] ==> p == w
    requires w < |s.procs| && s.procs[w].expired
    ensures !Valid(s.bytes) && forall p :: 0 <= p < |s.procs| ==> !Reading(s.procs[p].pc)
  {
    InitKeeps(size, roles);
    var inv := (x: State) => Inv(x) && Over(x, w);
    forall x: State, x': State | inv(x) && Next(x, x')
      ensures inv(x')
    {
      var a: Action :| Enabled(x, a) && x' == Step(x, a);
      StepKeeps(x, a);
      StepKeepsOver(x, a, w);
    }
    Runs.Kept(Next, inv, Init(size, roles), s);
  }

  lemma Act(s0: State, s: State, a: Action) returns (s': State)
    requires Runs.Reachable(Next, s0, s) && Inv(s) && Enabled(s, a)
    ensures Shaped(s) && s' == Step(s, a) && Runs.Reachable(Next, s0, s') && Inv(s')
    ensures |s'.procs| == |s.procs| == |s.sem.adjust| == |s'.sem.adjust|
  {
    StepKeeps(s, a);
    s' := Step(s, a);
    assert Next(s, s');
    Runs.ThenStep(Next, s0, s, s');
  }

  // A writer comes from its semaphore call to the point where it has marked the record valid.
  lemma Marked(s0: State, s: State, p: nat) returns (s': State)
    requires Runs.Reachable(Next, s0, s) && Inv(s)
    requires p < |s.procs| == |s.sem.adjust| && s.procs[p].writer && s.procs[p].pc == Take && s.sem.value == 1
    ensures Runs.Reachable(Next, s0, s') && Inv(s') && Valid(s'.bytes) && s'.sem.value == 0
    ensures |s'.procs| == |s'.sem.adjust|
    ensures s'.procs == s.procs[p := Process(true, Sum(0, 0), false, s.procs[p].expired)]
  {
    hide Inv, Shaped;
    s' := Act(s0, s, Go(p));
    s' := Act(s0, s', Format(p, []));
    s' := Act(s0, s', Go(p));
    s' := Act(s0, s', Go(p));
  }

  // It sums up the record, stores the sum and gives the semaphore back.
  lemma {:induction false} Released(s0: State, s: State, p: nat) returns (s': State)
    requires Runs.Reachable(Next, s0, s) && Inv(s)
    requires p < |s.procs| == |s.sem.adjust| && s.procs[p].writer && s.procs[p].pc.Sum? && s.sem.value == 0
    ensures Runs.Reachable(Next, s0, s') && Inv(s') && s'.sem.value == 1
    ensures |s'.procs| == |s'.sem.adjust| && s'.procs == s.procs[p := s.procs[p].(pc := Take)]
    decreases |s.bytes| - s.procs[p].pc.i
  {
    hide Inv, Shaped;
    var summing := s.procs[p].pc.i < |s.bytes|;
    s' := Act(s0, s, Go(p));
    if summing {
      s' := Released(s0, s', p);
    } else {
      s' := Act(s0, s', Go(p));
      s' := Act(s0, s', Go(p));
    }
  }

  // It takes the semaphore once more, finds that its time is up, and leaves.
  lemma TimedOut(s0: State, s: State, p: nat) returns (s': State)
    requires Runs.Reachable(Next, s0, s) && Inv(s)
    requires p < |s.procs| == |s.sem.adjust| && s.procs[p].writer && s.procs[p].pc == Take && !s.procs[p].first
    requires s.sem.value == 1 && s.sem.adjust[p] == 0
    ensures Runs.Reachable(Next, s0, s') && Inv(s') && s'.sem.value == 1
    ensures |s'.procs| == |s'.sem.adjust| && s'.procs == s.procs[p := Process(true, Exited, false, true)]
  {
    hide Inv, Shaped;
    s' := Act(s0, s, Go(p));
    s' := Act(s0, s', Expire(p));
    s' := Act(s0, s', Go(p));
    s' := Act(s0, s', Go(p));
  }

  // With two writers: one times out, the other marks the record valid again.
  lemma ValidAgain(size: nat, roles: seq<bool>, w: nat, u: nat) returns (s: State)
    requires size >= TEXT + MAX_BUF && w < |roles| && u < |roles| && w != u && roles[w] && roles[u]
    ensures Runs.Reachable(Next, Init(size, roles), s)
    ensures |s.procs| == |roles| && s.procs[w].expired && Valid(s.bytes)
  {
    var s0 := Init(size, roles);
    Runs.Stay(Next, s0);
    InitKeeps(size, roles);
    s := Marked(s0, s0, w);
    s := Released(s0, s, w);
    assert s.sem.adjust[w] == 0 by {
      assert !Holds(s)[w];
    }
    s := TimedOut(s0, s, w);
    s := Marked(s0, s, u);
  }

  /** What a writer's timeout store says is final, in every run, if and only if there is no other
      writer. */
  lemma TimeoutIsFinalIffOnlyWriter(size: nat, roles: seq<bool>, w: nat)
    requires size >= TEXT + MAX_BUF && w < |roles| && roles[w]
    ensures (forall s: State :: Runs.Reachable(Next, Init(size, roles), s) && w < |s.procs| && s.procs[w].expired ==>
               !Valid(s.bytes))
            <==> forall p :: 0 <= p < |roles| && roles[p] ==> p == w
  {
    if forall p :: 0 <= p < |roles| && roles[p] ==> p == w {
      forall s: State | Runs.Reachable(Next, Init(size, roles), s) && w < |s.procs| && s.procs[w].expired
        ensures !Valid(s.bytes)
      {
        NoReaderAfterTimeout(size, roles, w, s);
      }
    } else {
      var u :| 0 <= u < |roles| && roles[u] && u != w;
      var s := ValidAgain(size, roles, w, u);
    }
  }

  /** Nobody is left waiting: as long as one process has not returned, one can move on without
      a failing call. */
  lemma NoDeadlock(size: nat, roles: seq<bool>, s: State, p: nat) returns (a: Action)
    requires size >= TEXT + MAX_BUF && Runs.Reachable(Next, Init(size, roles), s)
    requires p < |s.procs| && s.procs[p].pc != Exited
    ensures Shaped(s) && Enabled(s, a) && !a.Fail? && Next(s, Step(s, a))
  {
    InvReachable(size, roles, s);
    assert forall q :: 0 <= q < |s.procs| ==> ProcessOk(s, s.procs[q]);
    Exclusive(s.sem, Holds(s));
    var q: nat := p;
    if s.procs[p].pc == Take && s.sem.value == 0 {
      q :| 0 <= q < |s.procs| && Holds(s)[q];
    }
    a := if s.procs[q].pc == Clock then Format(q, []) else Go(q);
  }

  // ----- What one process does when it is left alone -----

  // Process p goes on, its calls succeeding and its clock in range.
  ghost predicate GoesOn(p: nat, s: State, s': State) {
    Shaped(s) && exists a: Action :: a.p == p && (a.Go? || a.Format?) && Enabled(s, a) && s' == Step(s, a)
  }

  ghost function Solo(p: nat): (State, State) -> bool {
    (s: State, s': State) => GoesOn(p, s, s')
  }

  lemma ActAlone(s0: State, s: State, a: Action) returns (s': State)
    requires Runs.Reachable(Solo(a.p), s0, s) && Inv(s) && Enabled(s, a) && (a.Go? || a.Format?)
    ensures Shaped(s) && s' == Step(s, a) && Runs.Reachable(Solo(a.p), s0, s') && Inv(s')
    ensures |s'.procs| == |s.procs| == |s.sem.adjust| == |s'.sem.adjust|
  {
    StepKeeps(s, a);
    s' := Step(s, a);
    assert Solo(a.p)(s, s');
    Runs.ThenStep(Solo(a.p), s0, s, s');
  }

  lemma SumSoFar(s: State, p: nat)
    requires Inv(s) && p < |s.procs| && s.procs[p].pc.Sum?
    ensures s.procs[p].pc.i <= |s.bytes| && s.procs[p].pc.cs == PrefixSum(s.bytes, s.procs[p].pc.i)
  {
    assert ProcessOk(s, s.procs[p]);
  }

  // The summation loop runs to its end and leaves everything else as it is.
  lemma {:induction false} SumsUp(s0: State, s: State, p: nat) returns (s': State)
    requires Runs.Reachable(Solo(p), s0, s) && Inv(s)
    requires p < |s.procs| == |s.sem.adjust| && s.procs[p].pc.Sum?
    ensures Runs.Reachable(Solo(p), s0, s') && Inv(s')
    ensures var sum := Checksum(s.bytes);
            var pc := if s.procs[p].writer then StoreSum(sum) else Compare(sum);
            s' == s.(procs := s.procs[p := s.procs[p].(pc := pc)])
    decreases |s.bytes| - s.procs[p].pc.i
  {
    SumSoFar(s, p);
    hide Inv, Shaped, PrefixSum;
    var more := s.procs[p].pc.i < |s.bytes|;
    s' := ActAlone(s0, s, Go(p));
    if more {
      s' := SumsUp(s0, s', p);
    }
  }

  lemma SumIsRight(s: State, p: nat)
    requires Inv(s) && p < |s.procs| && s.procs[p].pc.Compare?
    ensures s.cs == s.procs[p].pc.cs
  {
    assert ProcessOk(s, s.procs[p]);
    Alone(s.sem, s.procs, Inside, p);
  }

  lemma HolderIsAlone(s: State, p: nat)
    requires Inv(s) && p < |s.procs| && Holding(s.procs[p].pc)
    ensures s.sem.value == 0 && |s.sem.adjust| == |s.procs| && s.sem.adjust[p] == 1
  {
    Alone(s.sem, s.procs, Inside, p);
    assert Holds(s)[p];
  }

  /** A reader that comes to a valid record with the semaphore prints it: left alone it sums up
      the bytes, gets to the print, and gives the semaphore back for another round. */
  lemma ReaderPrints(size: nat, roles: seq<bool>, s: State, p: nat) returns (printing: State, done: State)
    requires size >= TEXT + MAX_BUF && Runs.Reachable(Next, Init(size, roles), s)
    requires p < |s.procs| && s.procs[p].pc == Status && Valid(s.bytes)
    ensures Runs.Reachable(Solo(p), s, printing)
    ensures printing == s.(procs := s.procs[p := s.procs[p].(pc := Print)])
    ensures Runs.Reachable(Solo(p), printing, done) && done.sem.value == 1
    ensures done == s.(procs := s.procs[p := s.procs[p].(pc := Take)], sem := done.sem)
  {
    InvReachable(size, roles, s);
    assert ProcessOk(s, s.procs[p]);
    HolderIsAlone(s, p);
    hide Inv, Shaped, ProcessOk, PrefixSum;
    Runs.Stay(Solo(p), s);
    var x := ActAlone(s, s, Go(p));
    x := SumsUp(s, x, p);
    SumIsRight(x, p);
    printing := ActAlone(s, x, Go(p));
    done := GivesBack(printing, p);
  }

  lemma GivesBack(s: State, p: nat) returns (done: State)
    requires Inv(s) && p < |s.procs| == |s.sem.adjust| && s.procs[p].pc == Print && s.sem.value == 0
    ensures Runs.Reachable(Solo(p), s, done) && done.sem.value == 1
    ensures done == s.(procs := s.procs[p := s.procs[p].(pc := Take)], sem := done.sem)
  {
    hide Inv, Shaped;
    Runs.Stay(Solo(p), s);
    done := ActAlone(s, s, Go(p));
    done := ActAlone(s, done, Go(p));
  }

  /** A process out of its loop, but still with the semaphore, has the record invalid: a reader
      leaves for no other reason. */
  lemma LeavesInvalid(size: nat, roles: seq<bool>, s: State, p: nat)
    requires size >= TEXT + MAX_BUF && Runs.Reachable(Next, Init(size, roles), s)
    requires p < |s.procs| && s.procs[p].pc == Leaving
    ensures !Valid(s.bytes)
  {
    InvReachable(size, roles, s);
    assert ProcessOk(s, s.procs[p]);
  }

  // The writer stores the rest of the text and its end.
  lemma {:induction false} WritesText(s0: State, s: State, p: nat) returns (s': State)
    requires Runs.Reachable(Solo(p), s0, s) && Inv(s)
    requires p < |s.procs| == |s.sem.adjust| && s.procs[p].pc.Text? && s.procs[p].pc.k <= |s.procs[p].pc.text|
    ensures Runs.Reachable(Solo(p), s0, s') && Inv(s')
    ensures s' == s.(bytes := s'.bytes, current := s.procs[p].pc.text,
                     procs := s.procs[p := s.procs[p].(pc := Mark)])
    decreases |s.procs[p].pc.text| - s.procs[p].pc.k
  {
    hide Inv, Shaped;
    var more := s.procs[p].pc.k < |s.procs[p].pc.text|;
    s' := ActAlone(s0, s, Go(p));
    if more {
      s' := WritesText(s0, s', p);
    }
  }

  lemma StoredIsSound(s: State, p: nat)
    requires Inv(s) && p < |s.procs| && s.procs[p].pc.StoreSum?
    ensures Valid(s.bytes) && HoldsText(s.bytes, s.current) && s.procs[p].pc.cs == Checksum(s.bytes)
  {
    assert ProcessOk(s, s.procs[p]);
  }

  /** A writer with the semaphore and a time to show publishes it: left alone it ends its round
      with the record valid, the text and the right checksum in it, and the semaphore free. */
  lemma WriterPublishes(size: nat, roles: seq<bool>, s: State, p: nat, text: seq<int>) returns (done: State)
    requires size >= TEXT + MAX_BUF && Runs.Reachable(Next, Init(size, roles), s)
    requires p < |s.procs| && s.procs[p].pc == Clock && IsText(text)
    ensures Runs.Reachable(Solo(p), s, done) && done.sem.value == 1
    ensures done.procs == s.procs[p := s.procs[p].(pc := Take, first := false)]
    ensures Valid(done.bytes) && HoldsText(done.bytes, text) && done.cs == Checksum(done.bytes)
  {
    InvReachable(size, roles, s);
    assert ProcessOk(s, s.procs[p]);
    HolderIsAlone(s, p);
    hide Inv, Shaped, ProcessOk, HoldsText;
    done := WritesRecord(s, p, text);
    done := SumsUp(s, done, p);
    StoredIsSound(done, p);
    done := StoresSum(s, done, p);
  }

  lemma WritesRecord(s: State, p: nat, text: seq<int>) returns (s': State)
    requires Inv(s) && p < |s.procs| == |s.sem.adjust| && s.procs[p].pc == Clock && IsText(text)
    ensures Runs.Reachable(Solo(p), s, s') && Inv(s') && |s'.procs| == |s.procs|
    ensures s' == s.(bytes := s'.bytes, current := text,
                     procs := s.procs[p := s.procs[p].(pc := Sum(0, 0), first := false)])
  {
    hide Inv, Shaped, IsText;
    Runs.Stay(Solo(p), s);
    s' := ActAlone(s, s, Format(p, text));
    s' := WritesText(s, s', p);
    s' := ActAlone(s, s', Go(p));
  }

  lemma StoresSum(s0: State, s: State, p: nat) returns (done: State)
    requires Runs.Reachable(Solo(p), s0, s) && Inv(s)
    requires p < |s.procs| == |s.sem.adjust| && s.procs[p].pc.StoreSum? && s.sem.value == 0
    ensures Runs.Reachable(Solo(p), s0, done) && done.sem.value == 1
    ensures done == s.(cs := s.procs[p].pc.cs, sem := done.sem, procs := s.procs[p := s.procs[p].(pc := Take)])
  {
    hide Inv, Shaped;
    done := ActAlone(s0, s, Go(p));
    done := ActAlone(s0, done, Go(p));
  }

  /** A process may fail at its semaphore or clock call, and then has left with the record as it
      is, the semaphore free again if it had it; at the clock a writer may time out exactly when
      it has been through here before. */
  lemma CallOutcomes(size: nat, roles: seq<bool>, s: State, p: nat)
    requires size >= TEXT + MAX_BUF && Runs.Reachable(Next, Init(size, roles), s)
    requires p < |s.procs| && (s.procs[p].pc == Take || s.procs[p].pc == Clock)
    ensures Shaped(s) && Enabled(s, Fail(p))
    ensures Enabled(s, Expire(p)) <==> s.procs[p].pc == Clock && !s.procs[p].first
    ensures var s' := Step(s, Fail(p));
            && s'.sem.value == (if s.procs[p].pc == Take then s.sem.value else 1)
            && s' == s.(procs := s.procs[p := s.procs[p].(pc := Exited)], sem := s'.sem)
  {
    InvReachable(size, roles, s);
    InvIsShaped(s);
    assert Holds(s)[p] == Holding(s.procs[p].pc);
    if s.procs[p].pc == Clock {
      HolderIsAlone(s, p);
    }
  }

  /** In any state, a reader whose sum differs from the checksum leaves. */
  lemma WrongSumLeaves(s: State, p: nat)
    requires Shaped(s) && p < |s.procs| == |s.sem.adjust|
    requires s.procs[p].pc.Compare? && s.procs[p].pc.cs != s.cs
    ensures var a := Step(s, Go(p));
            Shaped(a) && var b := Step(a, Go(p));
            Shaped(b) && Step(b, Go(p)).procs[p].pc == Exited && Step(b, Go(p)).bytes == s.bytes
  {
  }

  /** The status words are those of shm.h, in little-endian order. */
  lemma StatusWords()
    ensures |STATUS_VALID| == |STATUS_INVALID| == 4
    ensures STATUS_VALID[0] + 256 * (STATUS_VALID[1] + 256 * (STATUS_VALID[2] + 256 * STATUS_VALID[3])) == 0xbeafbeaf
    ensures STATUS_INVALID[0] + 256 * (STATUS_INVALID[1] + 256 * (STATUS_INVALID[2] + 256 * STATUS_INVALID[3])) == 0
  {
  }

  /** Scripts play exactly the runs of the program: what can be reached is what some script
      reaches. */
  lemma ReachableIsPlayed(size: nat, roles: seq<bool>, s: State)
    requires size >= TEXT + MAX_BUF
    ensures Runs.Reachable(Next, Init(size, roles), s)
            <==> exists script: seq<Action>, run: seq<State> ::
                   Runs.Plays(Turn, run, script) && run[0] == Init(size, roles) && run[|script|] == s
  {
    if Runs.Reachable(Next, Init(size, roles), s) {
      var run: seq<State> :| Runs.IsRunFromTo(Next, run, Init(size, roles), s);
      forall x: State, x': State | Next(x, x')
        ensures exists a: Action :: Turn(x, a, x')
      {
        var a: Action :| Enabled(x, a) && x' == Step(x, a);
        assert Turn(x, a, x');
      }
      var script := Runs.Scripted(Next, Turn, run);
    }
    forall script: seq<Action>, run: seq<State> |
      Runs.Plays(Turn, run, script) && run[0] == Init(size, roles) && run[|script|] == s
      ensures Runs.Reachable(Next, Init(size, roles), s)
    {
      TurnsAreSteps();
      Runs.PlayReaches(Next, Turn, run, script);
    }
  }

  /** No writer times out before it has written a record. */
  lemma ExpiresLater(size: nat, roles: seq<bool>, s: State, p: nat)
    requires size >= TEXT + MAX_BUF && Runs.Reachable(Next, Init(size, roles), s) && p < |s.procs|
    ensures s.procs[p].pc == Invalidate || s.procs[p].expired ==> !s.procs[p].first
  {
    InvReachable(size, roles, s);
    assert ProcessOk(s, s.procs[p]);
  }

  // ----- The processes in place -----

  // The summation loop of writer and reader over the bytes as they are.
  method SumLoop(bytes: array<int>) returns (cs: int)
    ensures cs == Checksum(bytes[..])
  {
    cs := 0;
    for i := 0 to bytes.Length
      invariant cs == PrefixSum(bytes[..], i)
    {
      cs := cs + bytes[i];
    }
  }

  /** The shared segment, the kernel's semaphore and the variables of each main. */
  class Host {
    const bytes: array<int>
    var cs: int
    var value: int
    const adjust: array<int>
    ghost var current: seq<int>
    const procs: array<Process>

    ghost function View(): State
      reads this, bytes, adjust, procs
    {
      State(bytes[..], cs, Semaphore(value, adjust[..]), current, procs[..])
    }

    ghost predicate Distinct()
      reads this
    {
      adjust != bytes && adjust.Length == procs.Length
    }

    constructor (size: nat, roles: seq<bool>)
      ensures View() == Init(size, roles) && Distinct() && fresh(bytes) && fresh(adjust) && fresh(procs)
    {
      cs, value, current := 0, 1, [];
      bytes := new int[size](_ => 0);
      adjust := new int[|roles|](_ => 0);
      procs := new Process[|roles|](p requires 0 <= p < |roles| => Process(roles[p], Take, true, false));
    }

    method Goto(p: nat, pc: Pc)
      requires p < procs.Length
      modifies procs
      ensures procs[..] == old(procs[..])[p := old(procs[p]).(pc := pc)]
    {
      procs[p] := procs[p].(pc := pc);
    }

    method SemOp(p: nat, delta: int)
      requires p < adjust.Length
      modifies this`value, adjust
      ensures value == old(value) + delta
      ensures adjust[..] == old(adjust[..])[p := old(adjust[p]) - delta]
    {
      value := value + delta;
      adjust[p] := adjust[p] - delta;
    }

    method SetStatus(status: seq<int>)
      requires |status| == 4 <= bytes.Length
      modifies bytes
      ensures bytes[..] == WithStatus(old(bytes[..]), status)
    {
      bytes[0], bytes[1], bytes[2], bytes[3] := status[0], status[1], status[2], status[3];
    }

    // A statement that stores into the record.
    method StoreStatement(p: nat)
      requires Distinct() && Shaped(View()) && Enabled(View(), Go(p))
      requires procs[p].pc.Text? || procs[p].pc == Mark || procs[p].pc.StoreSum? || procs[p].pc == Invalidate
      modifies this`cs, this`current, bytes, procs
      ensures View() == old(Step(View(), Go(p)))
    {
      var x := procs[p];
      assert View().procs[p] == x;
      match x.pc {
      case Text(text, k) =>
        if k < |text| {
          bytes[TEXT + k] := text[k];
          Goto(p, Text(text, k + 1));
        } else {
          bytes[TEXT + k] := 0;
          current := text;
          Goto(p, Mark);
        }
      case Mark =>
        SetStatus(STATUS_VALID);
        Goto(p, Sum(0, 0));
      case StoreSum(sum) =>
        cs := sum;
        Goto(p, Give);
      case Invalidate =>
        SetStatus(STATUS_INVALID);
        procs[p] := x.(pc := Leaving, expired := true);
      case _ =>
      }
    }

    // The next statement of p, its call succeeding. It must not be waiting or have returned.
    method Continue(p: nat)
      requires Distinct() && Shaped(View()) && Enabled(View(), Go(p))
      modifies this, bytes, adjust, procs
      ensures View() == old(Step(View(), Go(p)))
    {
      var x := procs[p];
      assert View().procs[p] == x;
      if x.pc.Text? || x.pc == Mark || x.pc.StoreSum? || x.pc == Invalidate {
        StoreStatement(p);
        return;
      }
      match x.pc {
      case Take =>
        SemOp(p, -1);
        Goto(p, if x.writer then Clock else Status);
      case Sum(i, sum) =>
        if i < bytes.Length {
          Goto(p, Sum(i + 1, sum + bytes[i]));
        } else {
          Goto(p, if x.writer then StoreSum(sum) else Compare(sum));
        }
      case Status =>
        Goto(p, if STATUS_VALID <= bytes[..] then Sum(0, 0) else Leaving);
      case Compare(sum) =>
        Goto(p, if cs != sum then Mismatch else Print);
      case Print =>
        Goto(p, Give);
      case Mismatch =>
        Goto(p, Leaving);
      case Give =>
        SemOp(p, 1);
        Goto(p, Take);
      case Leaving =>
        SemOp(p, adjust[p]);
        Goto(p, Exited);
      case _ =>
      }
    }

    // The other actions: a failing call, and the two outcomes of reading the clock.
    method Divert(a: Action)
      requires Distinct() && Shaped(View()) && Enabled(View(), a) && !a.Go?
      modifies this, bytes, adjust, procs
      ensures View() == old(Step(View(), a))
    {
      var p := a.p;
      match a {
      case Fail(_) =>
        SemOp(p, adjust[p]);
        Goto(p, Exited);
      case Format(_, text) =>
        procs[p] := procs[p].(pc := Text(text, 0), first := false);
      case Expire(_) =>
        Goto(p, Invalidate);
      case _ =>
      }
    }

    method CanDo(a: Action) returns (b: bool)
      requires Distinct()
      ensures b == Enabled(View(), a)
    {
      if a.p >= procs.Length {
        return false;
      }
      var x := procs[a.p];
      assert View().procs[a.p] == x;
      match a {
      case Go(_) =>
        return x.pc != Exited && x.pc != Clock && (x.pc == Take ==> value > 0);
      case Fail(_) =>
        return x.pc == Take || x.pc == Clock;
      case Format(_, text) =>
        return x.pc == Clock && |text| < MAX_BUF && forall i | 0 <= i < |text| :: 0 < text[i] < 256;
      case Expire(_) =>
        return x.pc == Clock && !x.first;
      }
    }

    // One action, if it is possible.
    method Try(a: Action)
      requires Distinct() && Inv(View())
      modifies this, bytes, adjust, procs
      ensures Inv(View()) && Turn(old(View()), a, View())
    {
      InvIsShaped(View());
      var possible := CanDo(a);
      if possible {
        StepKeeps(View(), a);
        hide Inv, Step;
        if a.Go? {
          Continue(a.p);
        } else {
          Divert(a);
        }
      }
    }

    // Any script of actions; those that are not possible are passed over.
    method Play(script: seq<Action>) returns (ghost run: seq<State>)
      requires Distinct() && Inv(View())
      modifies this, bytes, adjust, procs
      ensures Inv(View())
      ensures Runs.Plays(Turn, run, script) && run[0] == old(View()) && run[|script|] == View()
      ensures Runs.Reachable(Next, old(View()), View())
    {
      hide Inv, Turn;
      run := [View()];
      for n := 0 to |script|
        invariant Inv(View())
        invariant Runs.Plays(Turn, run, script[..n]) && run[0] == old(View()) && run[n] == View()
      {
        Try(script[n]);
        Runs.PlayOne(Turn, run, script[..n], script[n], View());
        assert script[..n + 1] == script[..n] + [script[n]];
        run := run + [View()];
      }
      assert script[..|script|] == script;
      TurnsAreSteps();
      Runs.PlayReaches(Next, Turn, run, script);
    }
  }

  /** Writers and readers of the record as it is on a 64-bit machine (72 bytes before the
      checksum), under any script of steps, timeouts and failing calls: if the semaphore is free
      and the record is valid, summing up its bytes once more gives its checksum. */
  method ShmMain(roles: seq<bool>, script: seq<Action>) returns (bytes: seq<int>, cs: int, sum: int, free: bool)
    ensures |bytes| == 72 && sum == Checksum(bytes) && (free && Valid(bytes) ==> cs == sum)
  {
    InitKeeps(72, roles);
    var h := new Host(72, roles);
    ghost var run := h.Play(script);
    InvReachable(72, roles, h.View());
    bytes, cs, free := h.bytes[..], h.cs, h.value == 1;
    sum := SumLoop(h.bytes);
    if free {
      FreeRecordIsSound(72, roles, h.View());
    }
  }
}
