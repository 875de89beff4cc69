/** EX07-04: an echo server that serves all its connections from one select loop with one
  buffer.

  Descriptors are small numbers that the kernel reuses; a connection keeps its identity. In a
  pass over the descriptors select reported, connections are closed and accepted, so that a
  descriptor may change its meaning before the pass is over.
 */
module SelectServer {

  const FD_SETSIZE := 1024
  const MAX_BUF := 256

  // What an open descriptor stands for. Other: descriptors the program does not use here, such
  // as its standard input.
  datatype Endpoint = Listener | Client(id: nat) | Other

  // What read gives: end of file or an error, or some bytes.
  datatype Input = Closed | Bytes(chunk: seq<int>)

  // One round of the outer loop: the descriptors select left in its set, what read will give on
  // each, and the next connection to accept. A timeout leaves the set empty.
  datatype Round = Round(ready: set<nat>, inputs: map<nat, Input>, arrival: nat)

  // received and echoed: the bytes read from and written to each connection so far.
  datatype State = State(listener: nat, table: map<nat, Endpoint>, rfd: set<nat>,
                         received: map<nat, seq<int>>, echoed: map<nat, seq<int>>)

  // accept returns the lowest descriptor not in use.
  function LowestFree(table: map<nat, Endpoint>, from: nat): (fd: nat)
    ensures from <= fd && forall f: nat :: from <= f < fd ==> f in table
    ensures fd !in table || fd >= FD_SETSIZE
    decreases FD_SETSIZE - from
  {
    if from >= FD_SETSIZE || from !in table then from else LowestFree(table, from + 1)
  }

  function Append(log: map<nat, seq<int>>, id: nat, chunk: seq<int>): map<nat, seq<int>> {
    log[id := (if id in log then log[id] else []) + chunk]
  }

  // The body of the inner loop for one descriptor.
  function Visit(s: State, r: Round, fd: nat): State {
    if fd !in r.ready then s
    else if fd == s.listener then
      var f := LowestFree(s.table, 0);
      s.(table := s.table[f := Client(r.arrival)], rfd := s.rfd + {f},
         received := Append(s.received, r.arrival, []), echoed := Append(s.echoed, r.arrival, []))
    else if fd in s.table && s.table[fd].Client? && fd in r.inputs && r.inputs[fd].Bytes? then
      s.(received := Append(s.received, s.table[fd].id, r.inputs[fd].chunk),
         echoed := Append(s.echoed, s.table[fd].id, r.inputs[fd].chunk))
    else s.(table := s.table - {fd}, rfd := s.rfd - {fd})
  }

  // The descriptors below n visited, in order.
  function Pass(s: State, r: Round, n: nat): State {
    if n == 0 then s else Visit(Pass(s, r, n - 1), r, n - 1)
  }

  function Serve(s: State, rounds: seq<Round>): State {
    if rounds == [] then s else Pass(Serve(s, rounds[..|rounds| - 1]), rounds[|rounds| - 1], FD_SETSIZE)
  }

  // What select and the other end may do: only watched descriptors are ready, a read returns
  // at least one byte and no more than asked for, a connection that arrives is a new one, and
  // there is a descriptor for it.
  ghost predicate Possible(s: State, r: Round) {
    && r.ready <= s.rfd
    && (forall fd :: fd in r.ready && fd != s.listener ==>
          fd in r.inputs && (r.inputs[fd].Bytes? ==> 1 <= |r.inputs[fd].chunk| <= 255))
    && (s.listener in r.ready ==> r.arrival !in s.received && exists f: nat :: f < FD_SETSIZE && f !in s.table)
  }

  ghost predicate AllPossible(s: State, rounds: seq<Round>) {
    rounds == [] ||
    var before := rounds[..|rounds| - 1];
    AllPossible(s, before) && Possible(Serve(s, before), rounds[|rounds| - 1])
  }

  // The listener is open and watched, the other watched descriptors are the clients', each
  // client has one descriptor, and all that was read has been written.
  ghost predicate Inv(s: State) {
    && s.listener in s.table && s.table[s.listener] == Listener
    && s.listener < FD_SETSIZE
    && (forall fd: nat :: fd in s.rfd <==> fd == s.listener || (fd in s.table && s.table[fd].Client?))
    && (forall fd: nat :: fd in s.rfd ==> fd < FD_SETSIZE)
    && (forall fd: nat, fd': nat ::
          fd in s.table && fd' in s.table && s.table[fd].Client? && s.table[fd] == s.table[fd'] ==> fd == fd')
    && (forall fd: nat :: fd in s.table && s.table[fd].Client? ==> s.table[fd].id in s.received)
    && s.echoed == s.received
  }

  // Open, with the same endpoint as before the pass.
  predicate Same(s: State, s': State, fd: nat) {
    fd in s.table && fd in s'.table && s'.table[fd] == s.table[fd]
  }

  // In the middle of a pass, before descriptor n.
  ghost predicate Midway(s: State, r: Round, n: nat, m: State) {
    && Inv(m) && m.listener == s.listener
    && (s.listener in r.ready && s.listener >= n ==>
          r.arrival !in m.received && exists f: nat :: f < FD_SETSIZE && f !in m.table)
    && (forall fd: nat :: n <= fd && fd in r.ready ==> Same(s, m, fd))
  }

  lemma AcceptKeeps(s: State, r: Round, m: State)
    requires Midway(s, r, m.listener, m) && m.listener in r.ready
    ensures Midway(s, r, m.listener + 1, Visit(m, r, m.listener))
  {
    var f := LowestFree(m.table, 0);
    var g: nat :| g < FD_SETSIZE && g !in m.table;
    assert f <= g && f !in m.table;
  }

  lemma CloseKeeps(s: State, r: Round, n: nat, m: State)
    requires Midway(s, r, n, m) && n in r.ready && n != m.listener && n in m.rfd && n in r.inputs && r.inputs[n].Closed?
    ensures Midway(s, r, n + 1, Visit(m, r, n))
  {
    var m' := Visit(m, r, n);
    if m.listener >= n {
      assert n < FD_SETSIZE && n !in m'.table;
    }
  }

  lemma VisitKeeps(s: State, r: Round, n: nat, m: State)
    requires Inv(s) && Possible(s, r) && Midway(s, r, n, m)
    ensures Midway(s, r, n + 1, Visit(m, r, n))
  {
    if n in r.ready {
      assert Same(s, m, n);
      if n == m.listener {
        AcceptKeeps(s, r, m);
      } else if r.inputs[n].Closed? {
        CloseKeeps(s, r, n, m);
      }
    }
  }

  lemma PassBegins(s: State, r: Round)
    requires Inv(s) && Possible(s, r)
    ensures Midway(s, r, 0, s)
  {
  }

  lemma {:induction false} PassMidway(s: State, r: Round, n: nat)
    requires Inv(s) && Possible(s, r)
    ensures Midway(s, r, n, Pass(s, r, n))
  {
    PassBegins(s, r);
    hide Inv, Possible, Midway, Visit;
    if n > 0 {
      PassMidway(s, r, n - 1);
      VisitKeeps(s, r, n - 1, Pass(s, r, n - 1));
    }
  }

  /** When the pass comes to a descriptor that select reported, it still stands for the
      connection it stood for when select returned, whatever was closed and accepted since. */
  lemma StillTheSameConnection(s: State, r: Round, fd: nat)
    requires Inv(s) && Possible(s, r) && fd in r.ready
    ensures Same(s, Pass(s, r, fd), fd)
    ensures fd != s.listener ==> Pass(s, r, fd).table[fd].Client?
  {
    PassMidway(s, r, fd);
  }

  /** A whole pass keeps the invariant; in particular the listener is never closed and the
      watched set is the listener and the clients. */
  lemma PassKeeps(s: State, r: Round)
    requires Inv(s) && Possible(s, r)
    ensures Inv(Pass(s, r, FD_SETSIZE)) && Pass(s, r, FD_SETSIZE).listener == s.listener
  {
    PassMidway(s, r, FD_SETSIZE);
  }

  // ----- What comes back on a connection -----

  function Log(log: map<nat, seq<int>>, id: nat): seq<int> {
    if id in log then log[id] else []
  }

  // fd stands for connection id when select returns, and bytes are waiting on it.
  ghost predicate Sender(s: State, r: Round, fd: nat, id: nat) {
    fd in r.ready && fd in s.table && s.table[fd] == Client(id) && fd in r.inputs && r.inputs[fd].Bytes?
  }

  // The bytes a connection sends in a round, on a descriptor below n.
  ghost function Sent(s: State, r: Round, n: nat, id: nat): seq<int> {
    if exists fd: nat :: fd < n && Sender(s, r, fd, id) then
      var fd: nat :| fd < n && Sender(s, r, fd, id);
      r.inputs[fd].chunk
    else []
  }

  // The bytes on descriptor n itself.
  ghost function SentOn(s: State, r: Round, n: nat, id: nat): seq<int> {
    if Sender(s, r, n, id) then r.inputs[n].chunk else []
  }

  lemma SentStep(s: State, r: Round, n: nat, id: nat)
    requires Inv(s)
    ensures Sent(s, r, n + 1, id) == Sent(s, r, n, id) + SentOn(s, r, n, id)
  {
    assert forall fd: nat, fd': nat :: Sender(s, r, fd, id) && Sender(s, r, fd', id) ==> fd == fd';
    if Sender(s, r, n, id) {
      assert Sent(s, r, n + 1, id) == r.inputs[n].chunk && Sent(s, r, n, id) == [];
    } else {
      assert Sent(s, r, n + 1, id) == Sent(s, r, n, id);
    }
  }

  lemma VisitLogs(s: State, r: Round, n: nat, m: State, id: nat)
    requires Inv(s) && Possible(s, r) && Midway(s, r, n, m)
    ensures Log(Visit(m, r, n).received, id) == Log(m.received, id) + SentOn(s, r, n, id)
  {
    if n in r.ready {
      assert Same(s, m, n);
    }
  }

  /** A pass appends to the log of each connection exactly what that connection sent. */
  lemma {:induction false} PassLogs(s: State, r: Round, n: nat, id: nat)
    requires Inv(s) && Possible(s, r)
    ensures Log(Pass(s, r, n).received, id) == Log(s.received, id) + Sent(s, r, n, id)
  {
    hide Inv, Possible, Midway, Visit;
    if n > 0 {
      PassLogs(s, r, n - 1, id);
      PassMidway(s, r, n - 1);
      VisitLogs(s, r, n - 1, Pass(s, r, n - 1), id);
      SentStep(s, r, n - 1, id);
    }
  }

  // All bytes a connection sends in a run of the server, in the order of the rounds.
  ghost function AllSent(s: State, rounds: seq<Round>, id: nat): seq<int> {
    if rounds == [] then Log(s.received, id)
    else
      var before := rounds[..|rounds| - 1];
      AllSent(s, before, id) + Sent(Serve(s, before), rounds[|rounds| - 1], FD_SETSIZE, id)
  }

  /** However connections and chunks are interleaved over the rounds, what is written to each
      connection is what that connection sent, in order. */
  lemma {:induction false} EchoesItsOwnBytes(s: State, rounds: seq<Round>, id: nat)
    requires Inv(s) && AllPossible(s, rounds)
    ensures Inv(Serve(s, rounds)) && Serve(s, rounds).listener == s.listener
    ensures Log(Serve(s, rounds).echoed, id) == AllSent(s, rounds, id)
  {
    if rounds != [] {
      var before, r := rounds[..|rounds| - 1], rounds[|rounds| - 1];
      EchoesItsOwnBytes(s, before, id);
      PassKeeps(Serve(s, before), r);
      PassLogs(Serve(s, before), r, FD_SETSIZE, id);
    }
  }

  /** A client of before the pass keeps its descriptor unless its read gave nothing. */
  lemma {:induction false} WhoStays(s: State, r: Round, n: nat, fd: nat)
    requires Inv(s) && Possible(s, r) && fd in s.table && s.table[fd].Client?
    ensures var closed := fd in r.ready && r.inputs[fd].Closed? && fd < n;
            (Same(s, Pass(s, r, n), fd) <==> !closed)
  {
    if n > 0 {
      PassMidway(s, r, n - 1);
      WhoStays(s, r, n - 1, fd);
      var m := Pass(s, r, n - 1);
      if n - 1 in r.ready {
        assert Same(s, m, n - 1);
      }
    }
  }

  // ----- What a pass does to the descriptors -----

  // Below n, the descriptors whose read gave nothing.
  ghost predicate Hangs(s: State, r: Round, n: nat, fd: nat) {
    fd < n && fd in r.ready && fd != s.listener && fd in r.inputs && r.inputs[fd].Closed?
  }

  ghost predicate Kept(s: State, r: Round, n: nat, fd: nat) {
    fd in s.table && !Hangs(s, r, n, fd)
  }

  // The table when the pass has come to n: the descriptors kept are as before, and there is none
  // but those and the one accepted.
  ghost predicate TableAt(s: State, r: Round, n: nat, m: State, f: nat) {
    && (forall fd: nat :: Kept(s, r, n, fd) ==> Same(s, m, fd))
    && (forall fd: nat :: fd in m.table && !Kept(s, r, n, fd) ==> fd == f && s.listener in r.ready && s.listener < n)
    && (s.listener in r.ready && s.listener < n ==>
          f in m.table && m.table[f] == Client(r.arrival) && !Kept(s, r, s.listener, f))
  }

  lemma CloseTable(s: State, r: Round, n: nat, m: State, f: nat)
    requires TableAt(s, r, n, m, f) && n in r.ready && n != s.listener && Same(s, m, n)
    requires n in r.inputs && r.inputs[n].Closed?
    ensures TableAt(s, r, n + 1, m.(table := m.table - {n}, rfd := m.rfd - {n}), f)
  {
    var m' := m.(table := m.table - {n}, rfd := m.rfd - {n});
    assert Hangs(s, r, n + 1, n) && Kept(s, r, n, n);
    forall fd: nat | Kept(s, r, n + 1, fd)
      ensures Same(s, m', fd)
    {
      assert Kept(s, r, n, fd) && fd != n;
    }
    forall fd: nat | fd in m'.table && !Kept(s, r, n + 1, fd)
      ensures fd == f && s.listener in r.ready && s.listener < n + 1
    {
      assert !Kept(s, r, n, fd);
    }
    if s.listener in r.ready && s.listener < n {
      assert Kept(s, r, s.listener, n);
    }
  }

  lemma LeaveTable(s: State, r: Round, n: nat, m: State, m': State, f: nat)
    requires TableAt(s, r, n, m, f) && m'.table == m.table
    requires n == s.listener ==> n !in r.ready
    requires !Hangs(s, r, n + 1, n)
    ensures TableAt(s, r, n + 1, m', f)
  {
    assert forall fd: nat :: Kept(s, r, n + 1, fd) <==> Kept(s, r, n, fd);
    assert forall fd: nat :: Kept(s, r, n, fd) ==> Same(s, m, fd) && Same(s, m', fd);
  }

  lemma AcceptTable(s: State, r: Round, m: State, f: nat)
    requires Midway(s, r, s.listener, m) && TableAt(s, r, s.listener, m, f) && s.listener in r.ready
    requires f == LowestFree(m.table, 0)
    ensures TableAt(s, r, s.listener + 1, Visit(m, r, s.listener), f)
  {
    var g: nat :| g < FD_SETSIZE && g !in m.table;
    assert f <= g && f !in m.table;
    var n, m' := s.listener, Visit(m, r, s.listener);
    assert m'.table == m.table[f := Client(r.arrival)];
    assert Kept(s, r, n, f) ==> Same(s, m, f);
    hide Inv, Midway, Visit;
    forall fd: nat | Kept(s, r, n + 1, fd)
      ensures Same(s, m', fd)
    {
      assert Kept(s, r, n, fd) && Same(s, m, fd);
    }
    forall fd: nat | fd in m'.table && !Kept(s, r, n + 1, fd)
      ensures fd == f
    {
      assert !Kept(s, r, n, fd);
    }
  }

  lemma VisitTable(s: State, r: Round, n: nat, m: State, f: nat)
    requires Inv(s) && Possible(s, r) && Midway(s, r, n, m) && TableAt(s, r, n, m, f)
    requires n in r.ready && n == s.listener ==> f == LowestFree(m.table, 0)
    ensures TableAt(s, r, n + 1, Visit(m, r, n), f)
  {
    if n !in r.ready {
      LeaveTable(s, r, n, m, m, f);
    } else if n == s.listener {
      AcceptTable(s, r, m, f);
    } else {
      assert Same(s, m, n) && n in s.rfd && s.table[n].Client?;
      if r.inputs[n].Closed? {
        CloseTable(s, r, n, m, f);
      } else {
        LeaveTable(s, r, n, m, Visit(m, r, n), f);
      }
    }
  }

  lemma {:induction false} PassTable(s: State, r: Round, n: nat, f: nat)
    requires Inv(s) && Possible(s, r)
    requires s.listener in r.ready ==> f == LowestFree(Pass(s, r, s.listener).table, 0)
    ensures TableAt(s, r, n, Pass(s, r, n), f)
  {
    if n > 0 {
      PassTable(s, r, n - 1, f);
      PassMidway(s, r, n - 1);
      hide Inv, Possible, Midway, Visit, TableAt;
      VisitTable(s, r, n - 1, Pass(s, r, n - 1), f);
    }
  }

  /** The descriptors after a pass: all of before but those whose read gave nothing, each for what
      it was; and, if the listener was ready, one more for the connection that arrived. It is the
      lowest that was not open when the pass came to the listener, and it is watched. */
  lemma AfterPass(s: State, r: Round) returns (f: nat)
    requires Inv(s) && Possible(s, r)
    ensures var e := Pass(s, r, FD_SETSIZE);
            && (forall fd: nat :: Kept(s, r, FD_SETSIZE, fd) ==> Same(s, e, fd))
            && (forall fd: nat :: fd in e.table && !Kept(s, r, FD_SETSIZE, fd) ==> s.listener in r.ready && fd == f)
            && (s.listener in r.ready ==>
                  && f in e.table && e.table[f] == Client(r.arrival) && f in e.rfd && !Kept(s, r, s.listener, f)
                  && (forall fd: nat :: fd in e.table && e.table[fd] == Client(r.arrival) ==> fd == f)
                  && f !in Pass(s, r, s.listener).table
                  && forall g: nat :: g < f ==> g in Pass(s, r, s.listener).table)
  {
    f := LowestFree(Pass(s, r, s.listener).table, 0);
    PassTable(s, r, FD_SETSIZE, f);
    PassKeeps(s, r);
    if s.listener in r.ready {
      PassMidway(s, r, s.listener);
      var g: nat :| g < FD_SETSIZE && g !in Pass(s, r, s.listener).table;
      assert f <= g;
    }
  }

  ghost predicate Connected(s: State, id: nat) {
    exists fd: nat :: fd in s.table && s.table[fd] == Client(id)
  }

  // In this round the connection is read from, and nothing comes.
  ghost predicate HangsUp(s: State, r: Round, id: nat) {
    exists fd: nat :: fd in s.table && s.table[fd] == Client(id) && Hangs(s, r, FD_SETSIZE, fd)
  }

  /** The clients after a pass are those of before, without those whose read gave nothing, and the
      one that arrived if the listener was ready. */
  lemma ClientsAfterPass(s: State, r: Round, id: nat)
    requires Inv(s) && Possible(s, r)
    ensures Connected(Pass(s, r, FD_SETSIZE), id)
            <==> (Connected(s, id) && !HangsUp(s, r, id)) || (s.listener in r.ready && id == r.arrival)
  {
    var e := Pass(s, r, FD_SETSIZE);
    var f := AfterPass(s, r);
    if fd: nat :| fd in e.table && e.table[fd] == Client(id) {
      if Kept(s, r, FD_SETSIZE, fd) {
        assert Same(s, e, fd);
        assert s.table[fd] == Client(id);
      }
    }
    if Connected(s, id) && !HangsUp(s, r, id) {
      var fd: nat :| fd in s.table && s.table[fd] == Client(id);
      assert Kept(s, r, FD_SETSIZE, fd);
      assert Same(s, e, fd);
    }
  }

  // ----- The program -----

  /** The variables of main and the kernel's descriptor table. */
  class Server {
    const listener: nat
    var table: map<nat, Endpoint>
    var rfd: set<nat>
    const buf: array<int>
    ghost var received: map<nat, seq<int>>
    ghost var echoed: map<nat, seq<int>>

    ghost function View(): State
      reads this
    {
      State(listener, table, rfd, received, echoed)
    }

    ghost predicate Valid()
      reads this
    {
      buf.Length == MAX_BUF && Inv(View())
    }

    // socket, bind and listen have given `listener`; nobody is connected.
    constructor (listener: nat, others: set<nat>)
      requires listener < FD_SETSIZE && listener !in others
      ensures Valid() && fresh(buf) && received == map[]
      ensures this.listener == listener
    {
      this.listener := listener;
      table := (map fd | fd in others :: Other)[listener := Listener];
      rfd := {listener};
      buf := new int[MAX_BUF];
      received, echoed := map[], map[];
    }

    // accept: the lowest descriptor not in use.
    method Accept(arrival: nat) returns (fd: nat)
      requires exists f: nat :: f < FD_SETSIZE && f !in table
      modifies this`table, this`received, this`echoed
      ensures fd == LowestFree(old(table), 0)
      ensures table == old(table)[fd := Client(arrival)]
      ensures received == Append(old(received), arrival, []) && echoed == Append(old(echoed), arrival, [])
    {
      fd := LowestFree(table, 0);
      table := table[fd := Client(arrival)];
      received, echoed := Append(received, arrival, []), Append(echoed, arrival, []);
    }

    // read into the buffer: the number of bytes, 0 for end of file or an error.
    method Read(fd: nat, input: Input) returns (len: nat)
      requires fd in table && table[fd].Client? && buf.Length == MAX_BUF
      requires input.Bytes? ==> 1 <= |input.chunk| <= 255
      modifies this`received, buf
      ensures len == if input.Bytes? then |input.chunk| else 0
      ensures buf[..len] == if input.Bytes? then input.chunk else []
      ensures received == if input.Bytes? then Append(old(received), table[fd].id, input.chunk) else old(received)
    {
      if input.Closed? {
        return 0;
      }
      len := |input.chunk|;
      for i := 0 to len
        invariant received == old(received)
        invariant forall k :: 0 <= k < i ==> buf[k] == input.chunk[k]
      {
        buf[i] := input.chunk[i];
      }
      assert buf[..len] == input.chunk;
      received := Append(received, table[fd].id, input.chunk);
    }

    // write the first len bytes of the buffer.
    method Write(fd: nat, len: nat)
      requires fd in table && table[fd].Client? && len <= buf.Length
      modifies this`echoed
      ensures echoed == Append(old(echoed), table[fd].id, buf[..len])
    {
      echoed := Append(echoed, table[fd].id, buf[..len]);
    }

    /** One round of the outer loop, over the descriptors of select's set. */
    method ServeRound(r: Round)
      requires Valid() && Possible(View(), r)
      modifies this, buf
      ensures Valid() && View() == old(Pass(View(), r, FD_SETSIZE))
    {
      ghost var s := View();
      var tfd := r.ready;
      for fd := 0 to FD_SETSIZE
        invariant buf.Length == MAX_BUF && View() == Pass(s, r, fd)
      {
        PassMidway(s, r, fd);
        if fd in tfd {
          assert Same(s, View(), fd);
          if fd == listener {
            var sfd_client := Accept(r.arrival);
            rfd := rfd + {sfd_client};
          } else {
            var len := Read(fd, r.inputs[fd]);
            if len <= 0 {
              table := table - {fd};
              rfd := rfd - {fd};
            } else {
              buf[len] := 0;
              Write(fd, len);
            }
          }
        }
      }
      PassKeeps(s, r);
    }

    /** The endless loop, for as many rounds as are given: every connection gets back what it
        sent, and nothing else. */
    method Loop(rounds: seq<Round>)
      requires Valid() && AllPossible(View(), rounds)
      modifies this, buf
      ensures Valid() && View() == old(Serve(View(), rounds))
      ensures forall id: nat :: Log(echoed, id) == old(AllSent(View(), rounds, id))
    {
      ghost var s := View();
      Prefixes(s, rounds);
      for i := 0 to |rounds|
        invariant Valid() && View() == Serve(s, rounds[..i])
      {
        assert rounds[..i + 1][..i] == rounds[..i];
        assert AllPossible(s, rounds[..i + 1]);
        ServeRound(rounds[i]);
      }
      assert rounds[..|rounds|] == rounds;
      forall id: nat
        ensures Log(echoed, id) == AllSent(s, rounds, id)
      {
        EchoesItsOwnBytes(s, rounds, id);
      }
    }
  }

  lemma {:induction false} Prefixes(s: State, rounds: seq<Round>)
    requires AllPossible(s, rounds)
    ensures forall i :: 0 <= i <= |rounds| ==> AllPossible(s, rounds[..i])
  {
    assert rounds[..|rounds|] == rounds;
    if rounds != [] {
      var before := rounds[..|rounds| - 1];
      Prefixes(s, before);
      forall i | 0 <= i < |rounds|
        ensures AllPossible(s, rounds[..i])
      {
        assert rounds[..i] == before[..i];
      }
    }
  }
}
