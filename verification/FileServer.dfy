/** EX03-13: a server that reports size and mode of files to clients over a message queue. A
  reply carries the client's pid as its type, so that only that client takes it.
 */
module FileServer {
  import opened MessageQueue
  import opened Options
  import opened Progress
  import opened RequestReply
  import opened Sums
  import Runs

  const MAX_FNAME := 64

  datatype Stat = Stat(size: int, mode: int)

  // The message without its type. A client fills in the name and its pid; size, mode and valid
  // are whatever its stack holds.
  datatype Request = Request(fname: string, size: int, mode: int, valid: int, pid: int)

  // stat is a fixed function of the name: a file that is not in the map does not exist.
  type Files = map<string, Stat>

  // What the server makes of the message buffer between receiving and sending.
  function Serve(files: Files, b: Request): Request {
    if b.fname in files then b.(valid := 1, size := files[b.fname].size, mode := files[b.fname].mode)
    else b.(valid := 0)
  }

  function FileService(capacity: nat, files: Files): Service<Request> {
    Service(capacity, (b: Request) => Serve(files, b), (b: Request) => b.pid)
  }

  // A client whose file name does not fit gives up before it opens the queue.
  function NewClient(b: Request): Client<Request> {
    Client(b, b.pid, if |b.fname| >= MAX_FNAME then Rejected else Sending)
  }

  function Start(capacity: nat, files: Files, requests: seq<Request>): State<Request> {
    State(FileService(capacity, files), [], None,
          seq(|requests|, i requires 0 <= i < |requests| => NewClient(requests[i])), [], [], [], [])
  }

  // Process ids: distinct, and none is that of the first process, whose number is the type of
  // requests.
  ghost predicate ProperPids(requests: seq<Request>) {
    && (forall i :: 0 <= i < |requests| ==> requests[i].pid != REQUEST)
    && forall i, j :: 0 <= i < j < |requests| ==> requests[i].pid != requests[j].pid
  }

  // Who the clients are does not change, and the ones that gave up stay out.
  ghost predicate SameClients(requests: seq<Request>, s: State<Request>) {
    && |s.clients| == |requests|
    && forall i :: 0 <= i < |requests| ==>
         && s.clients[i].request == requests[i] && s.clients[i].waitOn == requests[i].pid
         && (s.clients[i].pc == Rejected <==> |requests[i].fname| >= MAX_FNAME)
  }

  lemma StartIsInitial(capacity: nat, files: Files, requests: seq<Request>)
    requires ProperPids(requests)
    ensures Initial(Start(capacity, files, requests))
    ensures SameClients(requests, Start(capacity, files, requests))
  {
  }

  lemma StepKeepsClients(requests: seq<Request>, s: State<Request>, s': State<Request>)
    requires SameClients(requests, s) && Next(s, s')
    ensures SameClients(requests, s')
  {
  }

  lemma Reached(capacity: nat, files: Files, requests: seq<Request>, s: State<Request>)
    requires ProperPids(requests) && Runs.Reachable(Next, Start(capacity, files, requests), s)
    ensures Initial(Start(capacity, files, requests)) && Inv(s) && SameClients(requests, s)
    ensures Users(s) == Users(Start(capacity, files, requests)) && s.service == FileService(capacity, files)
  {
    hide Initial, Inv, SameClients, Users, Next;
    var s0 := Start(capacity, files, requests);
    StartIsInitial(capacity, files, requests);
    UsersReachable(s0, s);
    var inv := (x: State<Request>) => SameClients(requests, x);
    forall x: State<Request>, x': State<Request> | inv(x) && Next(x, x')
      ensures inv(x')
    {
      StepKeepsClients(requests, x, x');
    }
    Runs.Kept(Next, inv, s0, s);
  }

  ghost predicate IsReport(files: Files, request: Request, reply: Request) {
    && reply.fname == request.fname && reply.pid == request.pid
    && (request.fname in files ==> reply.valid == 1 && Stat(reply.size, reply.mode) == files[request.fname])
    && (request.fname !in files ==> reply.valid == 0 && reply.size == request.size && reply.mode == request.mode)
  }

  /** In every interleaving of any number of clients each reply a client gets is for its own
      file and says what a direct stat would say. */
  lemma EachGetsItsOwnFile(capacity: nat, files: Files, requests: seq<Request>, s: State<Request>, i: nat)
    requires ProperPids(requests) && Runs.Reachable(Next, Start(capacity, files, requests), s)
    requires i < |s.clients| && s.clients[i].pc.Done?
    ensures i < |requests| && IsReport(files, requests[i], s.clients[i].pc.reply)
  {
    Reached(capacity, files, requests, s);
    var j := ReplyAnswersRequest(Start(capacity, files, requests), s, i);
    assert requests[j].pid == requests[i].pid;
    assert i == j by {
      if i < j || j < i {
        assert false;
      }
    }
  }

  // Messages on their way for one client: its request, the reply in the server, or the reply.
  ghost function OnTheWay(s: State<Request>, pid: int): nat {
    (Dests(s.service, s.queue) + HeldDest(s))[pid]
  }

  lemma {:induction false} WaitsOnce(cs: seq<Client<Request>>, i: nat)
    requires i < |cs| && forall k, l :: 0 <= k < l < |cs| ==> cs[k].waitOn != cs[l].waitOn
    ensures Bag(Waits, cs)[cs[i].waitOn] == if cs[i].pc == Waiting then 1 else 0
  {
    var w := cs[i].waitOn;
    if i == 0 {
      BagMember(Waits, cs[1..], w);
    } else {
      WaitsOnce(cs[1..], i - 1);
    }
  }

  /** A client has exactly one message on its way while it waits, and none at any other time. */
  lemma OneMessageEach(capacity: nat, files: Files, requests: seq<Request>, s: State<Request>, i: nat)
    requires ProperPids(requests) && Runs.Reachable(Next, Start(capacity, files, requests), s)
    requires i < |s.clients|
    ensures OnTheWay(s, s.clients[i].waitOn) == if s.clients[i].pc == Waiting then 1 else 0
  {
    Reached(capacity, files, requests, s);
    WaitsOnce(s.clients, i);
    assert DestsMatch(s);
  }

  /** With a queue that holds as many messages as there are clients whose name fits, a run that can
      go no further has taken four steps for each of them and none for the others; they all have
      their report, the queue is empty and the server is back at its receive. */
  lemma {:induction false} EveryoneIsServed(capacity: nat, files: Files, requests: seq<Request>,
                                           run: seq<State<Request>>)
    requires ProperPids(requests) && Users(Start(capacity, files, requests)) <= capacity
    requires Runs.IsRun(Next, run) && run[0] == Start(capacity, files, requests)
    requires Runs.Terminal(Next, run[|run| - 1])
    ensures |run| - 1 == 4 * Users(run[0]) <= 4 * |requests|
    ensures var s := run[|run| - 1];
            && s.queue == [] && s.held == None && |s.clients| == |requests|
            && forall i :: 0 <= i < |requests| && |requests[i].fname| < MAX_FNAME ==>
                 s.clients[i].pc.Done? && IsReport(files, requests[i], s.clients[i].pc.reply)
  {
    var s := run[|run| - 1];
    assert Runs.IsRunFromTo(Next, run, run[0], s);
    Reached(capacity, files, requests, s);
    AtMostAllUse(run[0].clients);
    RunsAreShort(run);
    OnlyServedIsFinal(s);
    QuietWhenServed(s);
    forall i | 0 <= i < |requests| && |requests[i].fname| < MAX_FNAME
      ensures s.clients[i].pc.Done? && IsReport(files, requests[i], s.clients[i].pc.reply)
    {
      assert s.clients[i].pc != Rejected;
      assert s.clients[i].pc != Sending && s.clients[i].pc != Waiting;
      EachGetsItsOwnFile(capacity, files, requests, s, i);
    }
  }

  lemma {:induction false} AtMostAllUse(cs: seq<Client<Request>>)
    ensures Sum(User, cs) <= |cs|
  {
    if cs != [] {
      AtMostAllUse(cs[1..]);
    }
  }

  // ----- The two programs -----

  // Where a client stands: before its msgsnd, before its msgrcv, or at its end.
  datatype Stage = Starting | Requested | Answered | GaveUp

  /** The server's loop body on its one message buffer. */
  class Server {
    var msgbuf: Request
    var replying: bool

    ghost function Held(): Option<Request>
      reads this
    {
      if replying then Some(msgbuf) else None
    }

    constructor ()
      ensures Held() == None
    {
      msgbuf, replying := Request("", 0, 0, 0, 0), false;
    }

    // msgrcv and stat. False where msgrcv would block.
    method Receive(q: Queue<Request>, files: Files, ghost s: State<Request>) returns (received: bool)
      requires s.queue == q.messages && s.held == Held() == None && s.service == FileService(q.capacity, files)
      modifies this, q
      ensures received == Enabled(s, ServerReceive)
      ensures var s' := if received then Step(s, ServerReceive) else s;
              q.messages == s'.queue && Held() == s'.held
    {
      var r := q.Receive(REQUEST);
      if r.None? {
        return false;
      }
      msgbuf := r.value;
      if msgbuf.fname !in files {
        msgbuf := msgbuf.(valid := 0);
      } else {
        var statb := files[msgbuf.fname];
        msgbuf := msgbuf.(valid := 1);
        msgbuf := msgbuf.(size := statb.size);
        msgbuf := msgbuf.(mode := statb.mode);
      }
      replying := true;
      return true;
    }

    // msgsnd to the client. False where msgsnd would block.
    method Reply(q: Queue<Request>, files: Files, ghost s: State<Request>) returns (sent: bool)
      requires s.queue == q.messages && replying && s.held == Held() && s.service == FileService(q.capacity, files)
      modifies this`replying, q
      ensures sent == Enabled(s, ServerReply)
      ensures var s' := if sent then Step(s, ServerReply) else s;
              q.messages == s'.queue && Held() == s'.held
    {
      sent := q.Send(Message(msgbuf.pid, msgbuf));
      replying := !sent;
    }
  }

  /** The client's two calls on its one message buffer. */
  class ClientProgram {
    const fname: string
    const pid: int
    var stage: Stage
    var msgbuf: Request

    // The program is where client c of the protocol is.
    ghost predicate Is(c: Client<Request>)
      reads this
    {
      c.waitOn == pid &&
      match stage
      case Starting => |fname| < MAX_FNAME && c == NewClient(msgbuf.(fname := fname, pid := pid))
      case Requested => c.pc == Waiting
      case Answered => c.pc == Done(msgbuf)
      case GaveUp => c.pc == Rejected
    }

    // Until the queue is opened; `stack` is what the message buffer holds by chance.
    constructor (fname: string, pid: int, stack: Request)
      ensures Is(NewClient(stack.(fname := fname, pid := pid)))
    {
      this.fname, this.pid, msgbuf := fname, pid, stack;
      stage := if |fname| >= MAX_FNAME then GaveUp else Starting;
    }

    // Fill in and msgsnd. False where msgsnd would block.
    method Send(q: Queue<Request>, files: Files, ghost s: State<Request>, ghost i: nat) returns (sent: bool)
      requires s.queue == q.messages && s.service == FileService(q.capacity, files)
      requires stage == Starting && i < |s.clients| && Is(s.clients[i])
      modifies this, q
      ensures sent == Enabled(s, ClientSend(i))
      ensures var s' := if sent then Step(s, ClientSend(i)) else s;
              q.messages == s'.queue && Is(s'.clients[i])
    {
      msgbuf := msgbuf.(fname := fname);
      msgbuf := msgbuf.(pid := pid);
      sent := q.Send(Message(1, msgbuf));
      if sent {
        stage := Requested;
      }
    }

    // msgrcv. False where it would block.
    method Receive(q: Queue<Request>, ghost s: State<Request>, ghost i: nat) returns (received: bool)
      requires s.queue == q.messages
      requires stage == Requested && i < |s.clients| && Is(s.clients[i])
      modifies this, q
      ensures received == Enabled(s, ClientReceive(i))
      ensures var s' := if received then Step(s, ClientReceive(i)) else s;
              q.messages == s'.queue && Is(s'.clients[i])
    {
      var r := q.Receive(pid);
      received := r.Some?;
      if received {
        msgbuf := r.value;
        stage := Answered;
      }
    }
  }

  /** The server and its clients, each with its own message buffer, and the queue they share. */
  class Host {
    const q: Queue<Request>
    const files: Files
    const server: Server
    const programs: seq<ClientProgram>
    ghost var s: State<Request>

    // The protocol state s is what the programs and the queue show.
    ghost predicate Valid()
      reads this, q, server, programs
    {
      && s.service == FileService(q.capacity, files) && s.queue == q.messages && s.held == server.Held()
      && |s.clients| == |programs|
      && (forall i, j :: 0 <= i < j < |programs| ==> programs[i] != programs[j])
      && forall i :: 0 <= i < |programs| ==> programs[i].Is(s.clients[i])
    }

    constructor (capacity: nat, files: Files, requests: seq<Request>)
      ensures Valid() && s == Start(capacity, files, requests)
      ensures fresh(q) && fresh(server) && forall i :: 0 <= i < |programs| ==> fresh(programs[i])
    {
      var created: seq<ClientProgram> := [];
      for i := 0 to |requests|
        invariant |created| == i
        invariant forall k :: 0 <= k < i ==> fresh(created[k]) && created[k].Is(NewClient(requests[k]))
        invariant forall j, k :: 0 <= j < k < i ==> created[j] != created[k]
      {
        var program := new ClientProgram(requests[i].fname, requests[i].pid, requests[i]);
        created := created + [program];
      }
      programs := created;
      q := new Queue(capacity);
      server := new Server();
      this.files := files;
      s := Start(capacity, files, requests);
    }

    // One call of one program. False, and the protocol stays as it was, where it would block or
    // the program does something else.
    method Advance(a: Action) returns (moved: bool)
      requires Valid()
      modifies this`s, q, server, programs
      ensures Valid() && moved == Enabled(old(s), a)
      ensures s == if moved then Step(old(s), a) else old(s)
    {
      match a {
      case ClientSend(i) =>
        if i >= |programs| || programs[i].stage != Starting {
          return false;
        }
        moved := programs[i].Send(q, files, s, i);
      case ClientReceive(i) =>
        if i >= |programs| || programs[i].stage != Requested {
          return false;
        }
        moved := programs[i].Receive(q, s, i);
      case ServerReceive =>
        if server.replying {
          return false;
        }
        moved := server.Receive(q, files, s);
      case ServerReply =>
        if !server.replying {
          return false;
        }
        moved := server.Reply(q, files, s);
      }
      if moved {
        s := Step(s, a);
      }
    }

    method Play(script: seq<Action>) returns (ghost run: seq<State<Request>>)
      requires Valid()
      modifies this`s, q, server, programs
      ensures Valid()
      ensures Runs.Plays(Turn, run, script) && run[0] == old(s) && run[|script|] == s
      ensures Runs.Reachable(Next, old(s), s)
    {
      run := [s];
      for n := 0 to |script|
        invariant Valid()
        invariant Runs.Plays(Turn, run, script[..n]) && run[0] == old(s) && run[n] == s
      {
        var moved := Advance(script[n]);
        Runs.PlayOne(Turn, run, script[..n], script[n], s);
        assert script[..n + 1] == script[..n] + [script[n]];
        run := run + [s];
      }
      assert script[..|script|] == script;
      Runs.PlayReaches(Next, Turn, run, script);
    }

    // What each client has received so far.
    method Replies() returns (replies: seq<Option<Request>>)
      requires Valid()
      ensures |replies| == |s.clients|
      ensures forall i :: 0 <= i < |replies| ==>
                replies[i] == if s.clients[i].pc.Done? then Some(s.clients[i].pc.reply) else None
    {
      replies := [];
      for i := 0 to |programs|
        invariant |replies| == i
        invariant forall k :: 0 <= k < i ==>
                    replies[k] == if s.clients[k].pc.Done? then Some(s.clients[k].pc.reply) else None
      {
        assert programs[i].Is(s.clients[i]);
        replies := replies + [if programs[i].stage == Answered then Some(programs[i].msgbuf) else None];
      }
    }
  }

  /** The server and any number of clients under any script of calls: whatever reply a client
      has is for its own file and says what a direct stat would say; a client whose name does
      not fit has none. With room for the others, four rounds of all calls for each client are
      enough for all of them to have their reply. */
  method FileMain(capacity: nat, files: Files, requests: seq<Request>, script: seq<Action>)
    returns (replies: seq<Option<Request>>)
    requires ProperPids(requests)
    ensures |replies| == |requests|
    ensures forall i :: 0 <= i < |replies| && replies[i].Some? ==>
              |requests[i].fname| < 64 && IsReport(files, requests[i], replies[i].value)
    ensures Users(Start(capacity, files, requests)) <= capacity
            && Runs.HasRounds(script, Calls(|requests|), 4 * |requests|) ==>
              forall i :: 0 <= i < |replies| && |requests[i].fname| < 64 ==> replies[i].Some?
  {
    var h := new Host(capacity, files, requests);
    ghost var s0 := h.s;
    ghost var run := h.Play(script);
    Reached(capacity, files, requests, h.s);
    replies := h.Replies();
    forall i | 0 <= i < |replies| && replies[i].Some?
      ensures |requests[i].fname| < 64 && IsReport(files, requests[i], replies[i].value)
    {
      EachGetsItsOwnFile(capacity, files, requests, h.s, i);
    }
    if Users(s0) <= capacity && Runs.HasRounds(script, Calls(|requests|), 4 * |requests|) {
      AtMostAllUse(s0.clients);
      RoundsServe(run, script, 4 * |requests|);
    }
  }
}
