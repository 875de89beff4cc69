/** EX03-12: a server that multiplies, over a message queue on which all clients wait for the
  same type. A client may take the reply meant for another.
 */
module Calculator {
  import opened MessageQueue
  import opened Options
  import opened Progress
  import opened RequestReply
  import opened Sums
  import Runs

  const MTYPE_S2C := 2

  // result is whatever the client's stack holds until the server fills it in.
  datatype Operation = Operation(op1: int, op2: int, result: int)

  function Serve(b: Operation): Operation {
    b.(result := b.op1 * b.op2)
  }

  function CalcService(capacity: nat): Service<Operation> {
    Service(capacity, Serve, (b: Operation) => MTYPE_S2C)
  }

  function NewClient(b: Operation): Client<Operation> {
    Client(b, MTYPE_S2C, Sending)
  }

  function Start(capacity: nat, requests: seq<Operation>): State<Operation> {
    State(CalcService(capacity), [], None,
          seq(|requests|, i requires 0 <= i < |requests| => NewClient(requests[i])), [], [], [], [])
  }

  ghost predicate SameClients(requests: seq<Operation>, s: State<Operation>) {
    && |s.clients| == |requests|
    && forall i :: 0 <= i < |requests| ==>
         s.clients[i].request == requests[i] && s.clients[i].waitOn == MTYPE_S2C && s.clients[i].pc != Rejected
  }

  lemma StartIsInitial(capacity: nat, requests: seq<Operation>)
    ensures Initial(Start(capacity, requests)) && SameClients(requests, Start(capacity, requests))
  {
  }

  lemma StepKeepsClients(requests: seq<Operation>, s: State<Operation>, s': State<Operation>)
    requires SameClients(requests, s) && Next(s, s')
    ensures SameClients(requests, s')
  {
  }

  lemma Reached(capacity: nat, requests: seq<Operation>, s: State<Operation>)
    requires Runs.Reachable(Next, Start(capacity, requests), s)
    ensures Initial(Start(capacity, requests)) && Inv(s) && SameClients(requests, s)
    ensures Users(s) == Users(Start(capacity, requests)) && s.service == CalcService(capacity)
  {
    hide Initial, Inv, SameClients, Users, Next;
    var s0 := Start(capacity, requests);
    StartIsInitial(capacity, requests);
    UsersReachable(s0, s);
    var inv := (x: State<Operation>) => SameClients(requests, x);
    forall x: State<Operation>, x': State<Operation> | inv(x) && Next(x, x')
      ensures inv(x')
    {
      StepKeepsClients(requests, x, x');
    }
    Runs.Kept(Next, inv, s0, s);
  }

  lemma {:induction false} ChannelIsAll(q: seq<Message<Operation>>)
    requires forall i :: 0 <= i < |q| ==> q[i].mtype == MTYPE_S2C
    ensures |Channel(q, MTYPE_S2C)| == |q| && forall i :: 0 <= i < |q| ==> Channel(q, MTYPE_S2C)[i] == q[i].body
  {
    if q != [] {
      ChannelIsAll(q[1..]);
    }
  }

  lemma {:induction false} AnswersAreAll(v: Service<Operation>, bs: seq<Operation>)
    requires v == CalcService(v.capacity)
    ensures |Answers(v, bs, MTYPE_S2C)| == |bs|
    ensures forall i :: 0 <= i < |bs| ==> Answers(v, bs, MTYPE_S2C)[i] == Serve(bs[i])
  {
    if bs != [] {
      AnswersAreAll(v, bs[1..]);
    }
  }

  /** The j-th reply received, whoever receives it, answers the j-th request sent: replies are,
      in order, the requests with their products. */
  lemma FirstSentFirstAnswered(capacity: nat, requests: seq<Operation>, s: State<Operation>)
    requires Runs.Reachable(Next, Start(capacity, requests), s)
    ensures |s.got| <= |s.sent|
    ensures forall j :: 0 <= j < |s.got| ==> s.got[j].body == Serve(s.sent[j])
  {
    Reached(capacity, requests, s);
    RepliesInOrder(Start(capacity, requests), s, MTYPE_S2C);
    ChannelIsAll(s.got);
    AnswersAreAll(s.service, s.sent);
    forall j | 0 <= j < |s.got|
      ensures s.got[j].body == Serve(s.sent[j])
    {
      assert s.got[j].body == Channel(s.got, MTYPE_S2C)[j] == Answers(s.service, s.sent, MTYPE_S2C)[j];
    }
  }

  function Operands(b: Operation): (int, int) {
    (b.op1, b.op2)
  }

  /** Every reply shows the product of the operands it shows, and those are the operands of the
      client that sent in the same place. */
  lemma RepliesAreConsistent(capacity: nat, requests: seq<Operation>, s: State<Operation>, j: nat)
    requires Runs.Reachable(Next, Start(capacity, requests), s) && j < |s.got|
    ensures |s.gotBy| == |s.got| && j < |s.sentBy| && s.gotBy[j] < |requests| && s.sentBy[j] < |requests|
    ensures s.gotBy[j] < |s.clients| && s.clients[s.gotBy[j]].pc.Done?
    ensures var reply := s.clients[s.gotBy[j]].pc.reply;
            && reply.result == reply.op1 * reply.op2
            && Operands(reply) == Operands(requests[s.sentBy[j]])
  {
    Reached(capacity, requests, s);
    FirstSentFirstAnswered(capacity, requests, s);
    assert History(s);
  }

  lemma BothSent(capacity: nat, requests: seq<Operation>, i: nat, j: nat) returns (s: State<Operation>)
    requires 2 <= capacity && i < |requests| && j < |requests| && i != j
    ensures Runs.Reachable(Next, Start(capacity, requests), s)
    ensures s.service == CalcService(capacity) && s.held == None
    ensures s.queue == [Message(REQUEST, requests[i]), Message(REQUEST, requests[j])]
    ensures |s.clients| == |requests| && s.clients[j] == Client(requests[j], MTYPE_S2C, Waiting)
  {
    var s0 := Start(capacity, requests);
    Runs.Stay(Next, s0);
    s := Go(s0, s0, ClientSend(i));
    s := Go(s0, s, ClientSend(j));
  }

  // The server answers the first of two requests; the other is still in the queue.
  lemma FirstAnswered(s0: State<Operation>, s: State<Operation>, a: Operation, b: Operation)
    returns (s': State<Operation>)
    requires Runs.Reachable(Next, s0, s) && s.service == CalcService(s.service.capacity) && 2 <= s.service.capacity
    requires s.held == None && s.queue == [Message(REQUEST, a), Message(REQUEST, b)]
    ensures Runs.Reachable(Next, s0, s') && s'.clients == s.clients
    ensures s'.queue == [Message(REQUEST, b), Message(MTYPE_S2C, Serve(a))]
  {
    assert s.queue[0].mtype == REQUEST && First(s.queue, REQUEST) == 0;
    s' := Go(s0, s, ServerReceive);
    assert s'.queue == [Message(REQUEST, b)] && s'.held == Some(Serve(a));
    s' := Go(s0, s', ServerReply);
  }

  /** Two clients can cross: whenever the queue has room for two messages, any client may take
      the reply meant for any other. */
  lemma RepliesMayCross(capacity: nat, requests: seq<Operation>, i: nat, j: nat) returns (s: State<Operation>)
    requires 2 <= capacity && i < |requests| && j < |requests| && i != j
    ensures Runs.Reachable(Next, Start(capacity, requests), s)
    ensures |s.clients| == |requests| && s.clients[j].pc == Done(Serve(requests[i]))
  {
    var s0 := Start(capacity, requests);
    s := BothSent(capacity, requests, i, j);
    s := FirstAnswered(s0, s, requests[i], requests[j]);
    hide Start;
    assert s.queue[1].mtype == MTYPE_S2C && First(s.queue, MTYPE_S2C) == 1;
    s := Go(s0, s, ClientReceive(j));
  }

  // ----- When every client gets its own answer -----

  // With room for one message only one request is under way at a time: whoever waits is whoever
  // sent last, and replies are taken by those who sent, in the same order.
  ghost predicate OneAtATime(s: State<Operation>) {
    && s.service == CalcService(s.service.capacity) && s.service.capacity <= 1
    && |s.sentBy| == |s.sent| == |s.got| + |s.queue| + HeldCount(s)
    && |s.queue| <= 1
    && s.gotBy == s.sentBy[..|s.got|]
    && (forall i :: 0 <= i < |s.clients| ==>
          && s.clients[i].waitOn == MTYPE_S2C
          && (s.clients[i].pc == Waiting <==> i in s.sentBy[|s.got|..])
          && (s.clients[i].pc.Done? ==> i in s.gotBy))
    && (s.held.Some? ==> !Has(s.queue, MTYPE_S2C))
  }

  lemma SendKeepsOrder(s: State<Operation>, i: nat)
    requires OneAtATime(s) && Enabled(s, ClientSend(i))
    ensures OneAtATime(Step(s, ClientSend(i)))
  {
    var s' := Step(s, ClientSend(i));
    assert s.queue == [];
    assert s'.sentBy[|s.got|..] == s.sentBy[|s.got|..] + [i];
    assert s'.sentBy[..|s.got|] == s.sentBy[..|s.got|];
  }

  lemma ReceiveKeepsOrder(s: State<Operation>, i: nat)
    requires OneAtATime(s) && Enabled(s, ClientReceive(i))
    ensures OneAtATime(Step(s, ClientReceive(i)))
  {
    var s', n := Step(s, ClientReceive(i)), |s.got|;
    assert s.sentBy[n..] == [s.sentBy[n]] && s.sentBy[n] == i;
    assert s'.gotBy == s.sentBy[..n] + [s.sentBy[n]] == s.sentBy[..n + 1];
    assert s'.sentBy[n + 1..] == [];
  }

  lemma ServerKeepsOrder(s: State<Operation>, a: Action)
    requires OneAtATime(s) && Enabled(s, a) && (a == ServerReceive || a == ServerReply)
    ensures OneAtATime(Step(s, a))
  {
  }

  lemma OneAtATimeReachable(capacity: nat, requests: seq<Operation>, s: State<Operation>)
    requires capacity <= 1 && Runs.Reachable(Next, Start(capacity, requests), s)
    ensures OneAtATime(s)
  {
    forall x: State<Operation>, x': State<Operation> | OneAtATime(x) && Next(x, x')
      ensures OneAtATime(x')
    {
      var a: Action :| Enabled(x, a) && x' == Step(x, a);
      match a {
      case ClientSend(i) => SendKeepsOrder(x, i);
      case ClientReceive(i) => ReceiveKeepsOrder(x, i);
      case _ => ServerKeepsOrder(x, a);
      }
    }
    Runs.Kept(Next, OneAtATime, Start(capacity, requests), s);
  }

  // Client i, if it has its reply, sees the operands it asked about.
  predicate OwnAnswer(requests: seq<Operation>, s: State<Operation>, i: nat) {
    i < |s.clients| && i < |requests| && s.clients[i].pc.Done? ==>
      Operands(s.clients[i].pc.reply) == Operands(requests[i])
  }

  predicate AllAlike(requests: seq<Operation>) {
    forall i, j :: 0 <= i < j < |requests| ==> Operands(requests[i]) == Operands(requests[j])
  }

  lemma AnswerIsOwn(capacity: nat, requests: seq<Operation>, s: State<Operation>, i: nat)
    requires Runs.Reachable(Next, Start(capacity, requests), s)
    requires capacity <= 1 || AllAlike(requests)
    ensures OwnAnswer(requests, s, i)
  {
    Reached(capacity, requests, s);
    if i < |s.clients| && s.clients[i].pc.Done? {
      if capacity <= 1 {
        OneAtATimeReachable(capacity, requests, s);
        var j :| 0 <= j < |s.gotBy| && s.gotBy[j] == i;
        assert History(s);
        RepliesAreConsistent(capacity, requests, s, j);
      } else {
        var j := ReplyAnswersRequest(Start(capacity, requests), s, i);
        assert Operands(s.clients[i].pc.reply) == Operands(requests[j]);
      }
    }
  }

  /** However many clients there are, each of them sees its own operands in every run if and only
      if the queue holds no more than one message or all ask about the same operands. */
  lemma OwnAnswersIff(capacity: nat, requests: seq<Operation>)
    ensures (forall s: State<Operation>, i: nat :: Runs.Reachable(Next, Start(capacity, requests), s) ==>
               OwnAnswer(requests, s, i))
            <==> capacity <= 1 || AllAlike(requests)
  {
    if capacity <= 1 || AllAlike(requests) {
      forall s: State<Operation>, i: nat | Runs.Reachable(Next, Start(capacity, requests), s)
        ensures OwnAnswer(requests, s, i)
      {
        AnswerIsOwn(capacity, requests, s, i);
      }
    } else {
      var i, j :| 0 <= i < j < |requests| && Operands(requests[i]) != Operands(requests[j]);
      var s := RepliesMayCross(capacity, requests, i, j);
      assert !OwnAnswer(requests, s, j);
    }
  }

  // ----- Operands are neither lost nor invented -----

  ghost function MessageOperands(m: Message<Operation>): multiset<(int, int)> {
    multiset{Operands(m.body)}
  }

  ghost function SentOperands(c: Client<Operation>): multiset<(int, int)> {
    if c.pc == Waiting || c.pc.Done? then multiset{Operands(c.request)} else multiset{}
  }

  ghost function GotOperands(c: Client<Operation>): multiset<(int, int)> {
    if c.pc.Done? then multiset{Operands(c.pc.reply)} else multiset{}
  }

  ghost function HeldOperands(s: State<Operation>): multiset<(int, int)> {
    if s.held.Some? then multiset{Operands(s.held.value)} else multiset{}
  }

  ghost predicate Conserved(s: State<Operation>) {
    Bag(SentOperands, s.clients) == Bag(GotOperands, s.clients) + (Bag(MessageOperands, s.queue) + HeldOperands(s))
  }

  lemma WithoutOperands(q: seq<Message<Operation>>, mtype: int)
    requires Has(q, mtype)
    ensures Bag(MessageOperands, q) == Bag(MessageOperands, Without(q, mtype)) + multiset{Operands(Taken(q, mtype))}
  {
    var k := First(q, mtype);
    assert q == q[..k] + ([q[k]] + q[k + 1..]);
    BagConcat(MessageOperands, q[..k], [q[k]] + q[k + 1..]);
    BagConcat(MessageOperands, [q[k]], q[k + 1..]);
    BagConcat(MessageOperands, q[..k], q[k + 1..]);
    OneMessage(q[k]);
  }

  lemma OneMessage(m: Message<Operation>)
    ensures Bag(MessageOperands, [m]) == multiset{Operands(m.body)}
  {
    assert [m][1..] == [];
  }

  lemma SendConserves(s: State<Operation>, i: nat)
    requires Conserved(s) && Enabled(s, ClientSend(i))
    ensures Conserved(Step(s, ClientSend(i)))
  {
    hide Bag;
    var s', m := Step(s, ClientSend(i)), Message(REQUEST, s.clients[i].request);
    BagConcat(MessageOperands, s.queue, [m]);
    OneMessage(m);
    BagUpdate(SentOperands, s.clients, i, s'.clients[i]);
    BagUpdate(GotOperands, s.clients, i, s'.clients[i]);
  }

  lemma ReceiveConserves(s: State<Operation>, i: nat)
    requires Conserved(s) && Enabled(s, ClientReceive(i))
    ensures Conserved(Step(s, ClientReceive(i)))
  {
    var s', w := Step(s, ClientReceive(i)), s.clients[i].waitOn;
    WithoutOperands(s.queue, w);
    BagUpdate(SentOperands, s.clients, i, s'.clients[i]);
    BagUpdate(GotOperands, s.clients, i, s'.clients[i]);
    MoveOver(Bag(SentOperands, s.clients), multiset{Operands(s.clients[i].request)}, Bag(GotOperands, s.clients),
             Bag(MessageOperands, s'.queue), multiset{Operands(Taken(s.queue, w))}, HeldOperands(s));
  }

  lemma MoveOver<V>(sent: multiset<V>, mine: multiset<V>, got: multiset<V>, rest: multiset<V>, one: multiset<V>,
                    held: multiset<V>)
    requires sent == got + ((rest + one) + held) && mine <= sent
    ensures sent - mine + mine == (got - multiset{} + one) + (rest + held)
  {
  }

  lemma ReplyConserves(s: State<Operation>)
    requires s.service == CalcService(s.service.capacity) && Conserved(s) && Enabled(s, ServerReply)
    ensures Conserved(Step(s, ServerReply))
  {
    hide Bag;
    var m := Message(MTYPE_S2C, s.held.value);
    BagConcat(MessageOperands, s.queue, [m]);
    OneMessage(m);
  }

  lemma ServeConserves(s: State<Operation>)
    requires s.service == CalcService(s.service.capacity) && Conserved(s) && Enabled(s, ServerReceive)
    ensures Conserved(Step(s, ServerReceive))
  {
    hide Bag, Without, Has;
    WithoutOperands(s.queue, REQUEST);
  }

  lemma StepConserves(s: State<Operation>, a: Action)
    requires s.service == CalcService(s.service.capacity) && Conserved(s) && Enabled(s, a)
    ensures Conserved(Step(s, a))
  {
    hide Conserved, Step;
    match a
    case ClientSend(i) => SendConserves(s, i);
    case ClientReceive(i) => ReceiveConserves(s, i);
    case ServerReceive => ServeConserves(s);
    case ServerReply => ReplyConserves(s);
  }

  lemma {:induction false} AllSent(cs: seq<Client<Operation>>, requests: seq<Operation>)
    requires |cs| == |requests| && forall i :: 0 <= i < |cs| ==> cs[i].request == requests[i] && cs[i].pc.Done?
    ensures Bag(SentOperands, cs) == Bag((b: Operation) => multiset{Operands(b)}, requests)
  {
    if cs != [] {
      AllSent(cs[1..], requests[1..]);
    }
  }

  lemma NextConserves(s: State<Operation>, s': State<Operation>)
    requires s.service == CalcService(s.service.capacity) && Conserved(s) && Next(s, s')
    ensures s'.service == s.service && Conserved(s')
  {
    hide Conserved;
    var a: Action :| Enabled(s, a) && s' == Step(s, a);
    StepConserves(s, a);
  }

  lemma StartConserves(capacity: nat, requests: seq<Operation>)
    ensures Conserved(Start(capacity, requests))
  {
    NothingYet(Start(capacity, requests).clients);
  }

  lemma ConservedReachable(capacity: nat, requests: seq<Operation>, s: State<Operation>)
    requires Runs.Reachable(Next, Start(capacity, requests), s)
    ensures Conserved(s)
  {
    hide Conserved, Next;
    var inv := (x: State<Operation>) => x.service == CalcService(x.service.capacity) && Conserved(x);
    StartConserves(capacity, requests);
    forall x: State<Operation>, x': State<Operation> | inv(x) && Next(x, x')
      ensures inv(x')
    {
      NextConserves(x, x');
    }
    Runs.Kept(Next, inv, Start(capacity, requests), s);
  }

  /** With a queue that holds as many messages as there are clients every run ends with all
      served after four steps a client, and the operand pairs the clients see are, as a
      bag, the pairs they asked for: every product is delivered once. */
  lemma {:induction false} EveryProductDelivered(capacity: nat, requests: seq<Operation>, run: seq<State<Operation>>)
    requires |requests| <= capacity
    requires Runs.IsRun(Next, run) && run[0] == Start(capacity, requests) && Runs.Terminal(Next, run[|run| - 1])
    ensures |run| - 1 == 4 * |requests|
    ensures var s := run[|run| - 1];
            && s.queue == [] && s.held == None
            && (forall i :: 0 <= i < |s.clients| ==> s.clients[i].pc.Done?)
            && Bag(GotOperands, s.clients) == Bag((b: Operation) => multiset{Operands(b)}, requests)
  {
    hide Inv, Bag, Step, Enabled;
    var s0, s := run[0], run[|run| - 1];
    assert Runs.IsRunFromTo(Next, run, s0, s);
    Reached(capacity, requests, s);
    SumConstant(User, s0.clients, 1);
    RunsAreShort(run);
    OnlyServedIsFinal(s);
    QuietWhenServed(s);
    ConservedReachable(capacity, requests, s);
    NoMessages();
    forall i | 0 <= i < |s.clients|
      ensures s.clients[i].pc.Done?
    {
      assert s.clients[i].pc != Sending && s.clients[i].pc != Waiting && s.clients[i].pc != Rejected;
    }
    AllSent(s.clients, requests);
  }

  lemma NoMessages()
    ensures Bag(MessageOperands, []) == multiset{}
  {
  }

  lemma {:induction false} NothingYet(cs: seq<Client<Operation>>)
    requires forall i :: 0 <= i < |cs| ==> cs[i].pc == Sending
    ensures Bag(SentOperands, cs) == Bag(GotOperands, cs) == multiset{}
  {
    if cs != [] {
      NothingYet(cs[1..]);
    }
  }

  // ----- The two programs -----

  // Where a client stands: before its msgsnd, before its msgrcv, or at its end.
  datatype Stage = Starting | Requested | Answered

  /** The server's loop body on its one message buffer. */
  class Server {
    var msgbuf: Operation
    var replying: bool

    ghost function Held(): Option<Operation>
      reads this
    {
      if replying then Some(msgbuf) else None
    }

    constructor ()
      ensures Held() == None
    {
      msgbuf, replying := Operation(0, 0, 0), false;
    }

    // msgrcv and the product. False where msgrcv would block.
    method Receive(q: Queue<Operation>, ghost s: State<Operation>) returns (received: bool)
      requires s.queue == q.messages && s.held == Held() == None && s.service == CalcService(q.capacity)
      modifies this, q
      ensures received == Enabled(s, ServerReceive)
      ensures var s' := if received then Step(s, ServerReceive) else s;
              q.messages == s'.queue && Held() == s'.held
    {
      var r := q.Receive(REQUEST);
      received := r.Some?;
      if received {
        msgbuf := r.value;
        msgbuf := msgbuf.(result := msgbuf.op1 * msgbuf.op2);
        replying := true;
      }
    }

    // msgsnd on the type all clients share. False where msgsnd would block.
    method Reply(q: Queue<Operation>, ghost s: State<Operation>) returns (sent: bool)
      requires s.queue == q.messages && replying && s.held == Held() && s.service == CalcService(q.capacity)
      modifies this`replying, q
      ensures sent == Enabled(s, ServerReply)
      ensures var s' := if sent then Step(s, ServerReply) else s;
              q.messages == s'.queue && Held() == s'.held
    {
      sent := q.Send(Message(MTYPE_S2C, msgbuf));
      replying := !sent;
    }
  }

  /** The client's two calls on its one message buffer. */
  class ClientProgram {
    const op1: int
    const op2: int
    var stage: Stage
    var msgbuf: Operation

    // The program is where client c of the protocol is.
    ghost predicate Is(c: Client<Operation>)
      reads this
    {
      c.waitOn == MTYPE_S2C &&
      match stage
      case Starting => c == NewClient(msgbuf.(op1 := op1, op2 := op2))
      case Requested => c.pc == Waiting
      case Answered => c.pc == Done(msgbuf)
    }

    // `stack` is what the message buffer holds by chance.
    constructor (op1: int, op2: int, stack: Operation)
      ensures Is(NewClient(stack.(op1 := op1, op2 := op2)))
    {
      this.op1, this.op2, msgbuf, stage := op1, op2, stack, Starting;
    }

    // Fill in and msgsnd. False where msgsnd would block.
    method Send(q: Queue<Operation>, ghost s: State<Operation>, ghost i: nat) returns (sent: bool)
      requires s.queue == q.messages && s.service == CalcService(q.capacity)
      requires stage == Starting && i < |s.clients| && Is(s.clients[i])
      modifies this, q
      ensures sent == Enabled(s, ClientSend(i))
      ensures var s' := if sent then Step(s, ClientSend(i)) else s;
              q.messages == s'.queue && Is(s'.clients[i])
    {
      msgbuf := msgbuf.(op1 := op1);
      msgbuf := msgbuf.(op2 := op2);
      sent := q.Send(Message(REQUEST, msgbuf));
      if sent {
        stage := Requested;
      }
    }

    // msgrcv. False where it would block.
    method Receive(q: Queue<Operation>, ghost s: State<Operation>, ghost i: nat) returns (received: bool)
      requires s.queue == q.messages
      requires stage == Requested && i < |s.clients| && Is(s.clients[i])
      modifies this, q
      ensures received == Enabled(s, ClientReceive(i))
      ensures var s' := if received then Step(s, ClientReceive(i)) else s;
              q.messages == s'.queue && Is(s'.clients[i])
    {
      var r := q.Receive(MTYPE_S2C);
      received := r.Some?;
      if received {
        msgbuf := r.value;
        stage := Answered;
      }
    }
  }

  /** The server and its clients, each with its own message buffer, and the queue they share. */
  class Host {
    const q: Queue<Operation>
    const server: Server
    const programs: seq<ClientProgram>
    ghost var s: State<Operation>

    // The protocol state s is what the programs and the queue show.
    ghost predicate Valid()
      reads this, q, server, programs
    {
      && s.service == CalcService(q.capacity) && s.queue == q.messages && s.held == server.Held()
      && |s.clients| == |programs|
      && (forall i, j :: 0 <= i < j < |programs| ==> programs[i] != programs[j])
      && forall i :: 0 <= i < |programs| ==> programs[i].Is(s.clients[i])
    }

    constructor (capacity: nat, requests: seq<Operation>)
      ensures Valid() && s == Start(capacity, requests)
      ensures fresh(q) && fresh(server) && forall i :: 0 <= i < |programs| ==> fresh(programs[i])
    {
      var created: seq<ClientProgram> := [];
      for i := 0 to |requests|
        invariant |created| == i
        invariant forall k :: 0 <= k < i ==> fresh(created[k]) && created[k].Is(NewClient(requests[k]))
        invariant forall j, k :: 0 <= j < k < i ==> created[j] != created[k]
      {
        var program := new ClientProgram(requests[i].op1, requests[i].op2, requests[i]);
        created := created + [program];
      }
      programs := created;
      q := new Queue(capacity);
      server := new Server();
      s := Start(capacity, requests);
    }

    // One call of one program. False, and the protocol stays as it was, where it would block or
    // the program does something else.
    method Advance(a: Action) returns (moved: bool)
      requires Valid()
      modifies this`s, q, server, programs
      ensures Valid() && moved == Enabled(old(s), a)
      ensures s == if moved then Step(old(s), a) else old(s)
    {
      match a {
      case ClientSend(i) =>
        if i >= |programs| || programs[i].stage != Starting {
          return false;
        }
        moved := programs[i].Send(q, s, i);
      case ClientReceive(i) =>
        if i >= |programs| || programs[i].stage != Requested {
          return false;
        }
        moved := programs[i].Receive(q, s, i);
      case ServerReceive =>
        if server.replying {
          return false;
        }
        moved := server.Receive(q, s);
      case ServerReply =>
        if !server.replying {
          return false;
        }
        moved := server.Reply(q, s);
      }
      if moved {
        s := Step(s, a);
      }
    }

    method Play(script: seq<Action>) returns (ghost run: seq<State<Operation>>)
      requires Valid()
      modifies this`s, q, server, programs
      ensures Valid()
      ensures Runs.Plays(Turn, run, script) && run[0] == old(s) && run[|script|] == s
      ensures Runs.Reachable(Next, old(s), s)
    {
      run := [s];
      for n := 0 to |script|
        invariant Valid()
        invariant Runs.Plays(Turn, run, script[..n]) && run[0] == old(s) && run[n] == s
      {
        var moved := Advance(script[n]);
        Runs.PlayOne(Turn, run, script[..n], script[n], s);
        assert script[..n + 1] == script[..n] + [script[n]];
        run := run + [s];
      }
      assert script[..|script|] == script;
      Runs.PlayReaches(Next, Turn, run, script);
    }

    // What each client has received so far.
    method Replies() returns (replies: seq<Option<Operation>>)
      requires Valid()
      ensures |replies| == |s.clients|
      ensures forall i :: 0 <= i < |replies| ==>
                replies[i] == if s.clients[i].pc.Done? then Some(s.clients[i].pc.reply) else None
    {
      replies := [];
      for i := 0 to |programs|
        invariant |replies| == i
        invariant forall k :: 0 <= k < i ==>
                    replies[k] == if s.clients[k].pc.Done? then Some(s.clients[k].pc.reply) else None
      {
        assert programs[i].Is(s.clients[i]);
        replies := replies + [if programs[i].stage == Answered then Some(programs[i].msgbuf) else None];
      }
    }
  }

  // What client i may expect of its reply.
  ghost predicate IsGood(capacity: nat, requests: seq<Operation>, reply: Operation, i: nat) {
    && i < |requests|
    && reply.result == reply.op1 * reply.op2
    && (exists j :: 0 <= j < |requests| && Operands(reply) == Operands(requests[j]))
    && (capacity <= 1 || AllAlike(requests) ==> Operands(reply) == Operands(requests[i]))
  }

  lemma EveryReplyIsGood(capacity: nat, requests: seq<Operation>, s: State<Operation>, i: nat)
    requires Runs.Reachable(Next, Start(capacity, requests), s)
    requires i < |s.clients| && s.clients[i].pc.Done?
    ensures IsGood(capacity, requests, s.clients[i].pc.reply, i)
  {
    Reached(capacity, requests, s);
    var j := ReplyAnswersRequest(Start(capacity, requests), s, i);
    hide Inv, Initial;
    assert Operands(s.clients[i].pc.reply) == Operands(requests[j]);
    if capacity <= 1 || AllAlike(requests) {
      AnswerIsOwn(capacity, requests, s, i);
    }
  }

  lemma EveryoneHasReply(capacity: nat, requests: seq<Operation>, run: seq<State<Operation>>, script: seq<Action>)
    requires Runs.Plays(Turn, run, script) && run[0] == Start(capacity, requests)
    requires |requests| <= capacity && Runs.HasRounds(script, Calls(|requests|), 4 * |requests|)
    ensures forall i :: 0 <= i < |run[|script|].clients| ==> run[|script|].clients[i].pc.Done?
  {
    StartIsInitial(capacity, requests);
    SumConstant(User, run[0].clients, 1);
    RoundsServe(run, script, 4 * |requests|);
    var last := run[|script|];
    Reached(capacity, requests, last);
    hide Inv, Initial, Next, Turn;
    forall i | 0 <= i < |last.clients|
      ensures last.clients[i].pc.Done?
    {
      assert last.clients[i].pc != Sending && last.clients[i].pc != Waiting && last.clients[i].pc != Rejected;
    }
  }

  /** The server and any number of clients under any script of calls: every reply is a right
      product, and with room for one message only, or all asking alike, it is the client's own.
      With room for all, four rounds of all calls for each client are enough for everyone to have
      a reply. */
  method CalcMain(capacity: nat, requests: seq<Operation>, script: seq<Action>)
    returns (replies: seq<Option<Operation>>)
    ensures |replies| == |requests|
    ensures forall i :: 0 <= i < |replies| && replies[i].Some? ==> IsGood(capacity, requests, replies[i].value, i)
    ensures |requests| <= capacity && Runs.HasRounds(script, Calls(|requests|), 4 * |requests|) ==>
              forall i :: 0 <= i < |replies| ==> replies[i].Some?
  {
    var h := new Host(capacity, requests);
    ghost var run := h.Play(script);
    Reached(capacity, requests, h.s);
    replies := h.Replies();
    forall i | 0 <= i < |replies| && replies[i].Some?
      ensures IsGood(capacity, requests, replies[i].value, i)
    {
      EveryReplyIsGood(capacity, requests, h.s, i);
    }
    if |requests| <= capacity && Runs.HasRounds(script, Calls(|requests|), 4 * |requests|) {
      EveryoneHasReply(capacity, requests, run, script);
    }
  }
}
