/** The protocol common to EX03-12 and EX03-13: clients that send one request each through a
  bounded message queue and wait for a reply, and one server.

  Requests have type 1. What the server does to the message buffer (`serve`), the type it
  replies with (`dest`) and the type a client waits on differ between the two programs. Each
  send and each receive is one step; the work of the server between them is local.
 */
module RequestReply {
  import opened MessageQueue
  import opened Options
  import opened Sums
  import Runs

  const REQUEST := 1

  datatype Service<!B> = Service(capacity: nat, serve: B -> B, dest: B -> int)

  // Rejected: the client gave up before it sent anything.
  datatype Pc<B> = Sending | Waiting | Done(reply: B) | Rejected

  datatype Client<B> = Client(request: B, waitOn: int, pc: Pc<B>)

  // held: the reply the server has made and not yet sent. sent, got and the clients that sent
  // and got them are the history of the run.
  datatype State<!B> = State(service: Service<B>, queue: seq<Message<B>>, held: Option<B>, clients: seq<Client<B>>,
                             sent: seq<B>, sentBy: seq<nat>, got: seq<Message<B>>, gotBy: seq<nat>)

  datatype Action = ClientSend(i: nat) | ClientReceive(i: nat) | ServerReceive | ServerReply

  ghost predicate Enabled<B(!new)>(s: State<B>, a: Action) {
    match a
    case ClientSend(i) => i < |s.clients| && s.clients[i].pc == Sending && |s.queue| < s.service.capacity
    case ClientReceive(i) => i < |s.clients| && s.clients[i].pc == Waiting && Has(s.queue, s.clients[i].waitOn)
    case ServerReceive => s.held.None? && Has(s.queue, REQUEST)
    case ServerReply => s.held.Some? && |s.queue| < s.service.capacity
  }

  ghost function Step<B(!new)>(s: State<B>, a: Action): State<B>
    requires Enabled(s, a)
  {
    match a
    case ClientSend(i) =>
      var c := s.clients[i];
      s.(queue := s.queue + [Message(REQUEST, c.request)],
         clients := s.clients[i := c.(pc := Waiting)],
         sent := s.sent + [c.request], sentBy := s.sentBy + [i])
    case ClientReceive(i) =>
      var c := s.clients[i];
      var reply := Taken(s.queue, c.waitOn);
      s.(queue := Without(s.queue, c.waitOn),
         clients := s.clients[i := c.(pc := Done(reply))],
         got := s.got + [Message(c.waitOn, reply)], gotBy := s.gotBy + [i])
    case ServerReceive =>
      s.(queue := Without(s.queue, REQUEST), held := Some(s.service.serve(Taken(s.queue, REQUEST))))
    case ServerReply =>
      s.(queue := s.queue + [Message(s.service.dest(s.held.value), s.held.value)], held := None)
  }

  ghost predicate Next<B(!new)>(s: State<B>, s': State<B>) {
    exists a: Action :: Enabled(s, a) && s' == Step(s, a)
  }

  // What comes of an entry of a script.
  ghost predicate Turn<B(!new)>(s: State<B>, a: Action, s': State<B>) {
    s' == if Enabled(s, a) then Step(s, a) else s
  }

  // One more action at the end of a run.
  lemma Go<B(!new)>(s0: State<B>, s: State<B>, a: Action) returns (s': State<B>)
    requires Runs.Reachable(Next, s0, s) && Enabled(s, a)
    ensures s' == Step(s, a) && Runs.Reachable(Next, s0, s')
  {
    s' := Step(s, a);
    Runs.ThenStep(Next, s0, s, s');
  }

  // The service replies on the type its clients wait on, which is not the type of requests.
  ghost predicate Routed<B(!new)>(v: Service<B>, clients: seq<Client<B>>) {
    && (forall b: B :: v.dest(v.serve(b)) == v.dest(b))
    && forall i :: 0 <= i < |clients| ==>
         v.dest(clients[i].request) == clients[i].waitOn && clients[i].waitOn != REQUEST
  }

  ghost predicate Initial<B(!new)>(s: State<B>) {
    && Routed(s.service, s.clients)
    && (forall i :: 0 <= i < |s.clients| ==> s.clients[i].pc == Sending || s.clients[i].pc == Rejected)
    && s.queue == [] && s.held == None && s.sent == [] && s.sentBy == [] && s.got == [] && s.gotBy == []
  }

  // ----- Where messages are bound for -----

  ghost function DestOf<B(!new)>(v: Service<B>, m: Message<B>): int {
    if m.mtype == REQUEST then v.dest(m.body) else m.mtype
  }

  // For each type, how many messages of the queue are or will become replies of that type.
  ghost function Dests<B(!new)>(v: Service<B>, q: seq<Message<B>>): multiset<int> {
    if q == [] then multiset{} else multiset{DestOf(v, q[0])} + Dests(v, q[1..])
  }

  ghost function HeldDest<B(!new)>(s: State<B>): multiset<int> {
    if s.held.Some? then multiset{s.service.dest(s.held.value)} else multiset{}
  }

  ghost function Waits<B(!new)>(c: Client<B>): multiset<int> {
    if c.pc == Waiting then multiset{c.waitOn} else multiset{}
  }

  lemma {:induction false} DestsConcat<B(!new)>(v: Service<B>, a: seq<Message<B>>, b: seq<Message<B>>)
    ensures Dests(v, a + b) == Dests(v, a) + Dests(v, b)
  {
    if a == [] {
      assert a + b == b;
    } else {
      assert (a + b)[1..] == a[1..] + b;
      DestsConcat(v, a[1..], b);
    }
  }

  lemma DestsOne<B(!new)>(v: Service<B>, m: Message<B>)
    ensures Dests(v, [m]) == multiset{DestOf(v, m)}
  {
    assert [m][1..] == [];
  }

  lemma DestsWithout<B(!new)>(v: Service<B>, q: seq<Message<B>>, mtype: int)
    requires Has(q, mtype)
    ensures Dests(v, q) == Dests(v, Without(q, mtype)) + multiset{DestOf(v, q[First(q, mtype)])}
  {
    var k := First(q, mtype);
    assert q == q[..k] + ([q[k]] + q[k + 1..]);
    DestsConcat(v, q[..k], [q[k]] + q[k + 1..]);
    DestsConcat(v, [q[k]], q[k + 1..]);
    DestsConcat(v, q[..k], q[k + 1..]);
    DestsOne(v, q[k]);
  }

  lemma {:induction false} DestsSize<B(!new)>(v: Service<B>, q: seq<Message<B>>)
    ensures |Dests(v, q)| == |q|
  {
    if q != [] {
      DestsSize(v, q[1..]);
    }
  }

  lemma {:induction false} DestsMember<B(!new)>(v: Service<B>, q: seq<Message<B>>, w: int)
    ensures w in Dests(v, q) <==> exists i :: 0 <= i < |q| && DestOf(v, q[i]) == w
  {
    if q != [] {
      DestsMember(v, q[1..], w);
      if i :| 0 <= i < |q[1..]| && DestOf(v, q[1..][i]) == w {
        assert DestOf(v, q[i + 1]) == w;
      }
      if i :| 0 <= i < |q| && DestOf(v, q[i]) == w {
        if i > 0 {
          assert DestOf(v, q[1..][i - 1]) == w;
        }
      }
    }
  }

  // ----- The answers due on one type -----

  // The replies, in order, that the service owes on type w for the requests bs.
  ghost function Answers<B(!new)>(v: Service<B>, bs: seq<B>, w: int): seq<B> {
    if bs == [] then []
    else (if v.dest(bs[0]) == w then [v.serve(bs[0])] else []) + Answers(v, bs[1..], w)
  }

  lemma {:induction false} AnswersConcat<B(!new)>(v: Service<B>, a: seq<B>, b: seq<B>, w: int)
    ensures Answers(v, a + b, w) == Answers(v, a, w) + Answers(v, b, w)
  {
    if a == [] {
      assert a + b == b;
    } else {
      assert (a + b)[1..] == a[1..] + b;
      AnswersConcat(v, a[1..], b, w);
    }
  }

  lemma AnswersOne<B(!new)>(v: Service<B>, b: B, w: int)
    ensures Answers(v, [b], w) == if v.dest(b) == w then [v.serve(b)] else []
  {
    assert [b][1..] == [];
  }

  lemma {:induction false} AnswersMember<B(!new)>(v: Service<B>, bs: seq<B>, w: int, r: B)
    requires r in Answers(v, bs, w)
    ensures exists j :: 0 <= j < |bs| && v.dest(bs[j]) == w && r == v.serve(bs[j])
  {
    if v.dest(bs[0]) == w && r == v.serve(bs[0]) {
    } else {
      AnswersMember(v, bs[1..], w, r);
      var j :| 0 <= j < |bs[1..]| && v.dest(bs[1..][j]) == w && r == v.serve(bs[1..][j]);
      assert bs[j + 1] == bs[1..][j];
    }
  }

  ghost function HeldOn<B(!new)>(s: State<B>, w: int): seq<B> {
    if s.held.Some? && s.service.dest(s.held.value) == w then [s.held.value] else []
  }

  // Everything due on type w: already received, in the queue, held, and still to be served.
  ghost function Account<B(!new)>(s: State<B>, w: int): seq<B> {
    Channel(s.got, w) + (Channel(s.queue, w) + (HeldOn(s, w) + Answers(s.service, Channel(s.queue, REQUEST), w)))
  }

  ghost predicate Pending<B(!new)>(s: State<B>) {
    && |Channel(s.queue, REQUEST)| <= |s.sent|
    && Channel(s.queue, REQUEST) == s.sent[|s.sent| - |Channel(s.queue, REQUEST)|..]
  }

  // Who sent and who got what is in the history.
  ghost predicate History<B(!new)>(s: State<B>) {
    && |s.sentBy| == |s.sent| && |s.gotBy| == |s.got|
    && (forall j :: 0 <= j < |s.sent| ==>
          && s.sentBy[j] < |s.clients|
          && s.clients[s.sentBy[j]].request == s.sent[j])
    && (forall j :: 0 <= j < |s.got| ==>
          && s.gotBy[j] < |s.clients|
          && s.clients[s.gotBy[j]].pc == Done(s.got[j].body)
          && s.clients[s.gotBy[j]].waitOn == s.got[j].mtype)
    && (forall i :: 0 <= i < |s.clients| && s.clients[i].pc.Done? ==>
          Message(s.clients[i].waitOn, s.clients[i].pc.reply) in s.got)
  }

  ghost predicate Inv<B(!new)>(s: State<B>) {
    && Routed(s.service, s.clients)
    && DestsMatch(s)
    && (forall w: int :: w != REQUEST ==> AccountMatches(s, w))
    && Pending(s)
    && History(s)
  }

  lemma InitialKeeps<B(!new)>(s: State<B>)
    requires Initial(s)
    ensures Inv(s)
  {
    NobodyWaits(s.clients);
  }

  lemma {:induction false} NobodyWaits<B(!new)>(cs: seq<Client<B>>)
    ensures Bag(Waits, cs) == multiset{} <==> forall i :: 0 <= i < |cs| ==> cs[i].pc != Waiting
  {
    if cs != [] {
      NobodyWaits(cs[1..]);
      assert Bag(Waits, cs) == Waits(cs[0]) + Bag(Waits, cs[1..]);
      if cs[0].pc == Waiting {
        assert cs[0].waitOn in Bag(Waits, cs);
      }
      assert (forall i :: 0 <= i < |cs| ==> cs[i].pc != Waiting) <==>
             (cs[0].pc != Waiting && forall i :: 0 <= i < |cs[1..]| ==> cs[1..][i].pc != Waiting) by {
        assert forall i :: 0 < i < |cs| ==> cs[i] == cs[1..][i - 1];
      }
    }
  }

  // Nothing in flight is bound for the server's own type.
  lemma NotToServer<B(!new)>(s: State<B>)
    requires Inv(s)
    ensures REQUEST !in Dests(s.service, s.queue) + HeldDest(s)
  {
    BagMember(Waits, s.clients, REQUEST);
  }

  ghost predicate DestsMatch<B(!new)>(s: State<B>) {
    Dests(s.service, s.queue) + HeldDest(s) == Bag(Waits, s.clients)
  }

  lemma SendKeepsDests<B(!new)>(s: State<B>, i: nat)
    requires DestsMatch(s) && Routed(s.service, s.clients) && Enabled(s, ClientSend(i))
    ensures DestsMatch(Step(s, ClientSend(i)))
  {
    hide Dests, Bag;
    var s', m := Step(s, ClientSend(i)), Message(REQUEST, s.clients[i].request);
    DestsConcat(s.service, s.queue, [m]);
    DestsOne(s.service, m);
    BagUpdate(Waits, s.clients, i, s'.clients[i]);
  }

  lemma ReceiveKeepsDests<B(!new)>(s: State<B>, i: nat)
    requires DestsMatch(s) && Routed(s.service, s.clients) && Enabled(s, ClientReceive(i))
    ensures DestsMatch(Step(s, ClientReceive(i)))
  {
    var s', w := Step(s, ClientReceive(i)), s.clients[i].waitOn;
    DestsWithout(s.service, s.queue, w);
    BagUpdate(Waits, s.clients, i, s'.clients[i]);
    TakeFromBoth(Dests(s'.service, s'.queue), HeldDest(s), Bag(Waits, s.clients), w);
  }

  lemma TakeFromBoth(d: multiset<int>, h: multiset<int>, b: multiset<int>, w: int)
    requires (d + multiset{w}) + h == b
    ensures d + h == b - multiset{w} + multiset{}
  {
  }

  lemma ServeKeepsDests<B(!new)>(s: State<B>, a: Action)
    requires DestsMatch(s) && Routed(s.service, s.clients) && Enabled(s, a)
    requires a == ServerReceive || (a == ServerReply && REQUEST !in HeldDest(s))
    ensures DestsMatch(Step(s, a))
  {
    if a == ServerReceive {
      DestsWithout(s.service, s.queue, REQUEST);
    } else {
      var m := Message(s.service.dest(s.held.value), s.held.value);
      DestsConcat(s.service, s.queue, [m]);
      DestsOne(s.service, m);
    }
  }

  ghost predicate AccountMatches<B(!new)>(s: State<B>, w: int) {
    Account(s, w) == Answers(s.service, s.sent, w)
  }

  lemma SendKeepsAccount<B(!new)>(s: State<B>, i: nat, w: int)
    requires AccountMatches(s, w) && Enabled(s, ClientSend(i)) && w != REQUEST
    ensures AccountMatches(Step(s, ClientSend(i)), w)
  {
    hide Channel, Answers, Has;
    var b, requests := s.clients[i].request, Channel(s.queue, REQUEST);
    var m, due := Message(REQUEST, b), Answers(s.service, [b], w);
    SendAppends(s.queue, m, w);
    SendAppends(s.queue, m, REQUEST);
    AnswersConcat(s.service, requests, [b], w);
    AnswersConcat(s.service, s.sent, [b], w);
    AppendInside(Channel(s.got, w), Channel(s.queue, w), HeldOn(s, w), Answers(s.service, requests, w), due);
  }

  lemma AppendInside<B>(a: seq<B>, b: seq<B>, c: seq<B>, d: seq<B>, e: seq<B>)
    ensures a + ((b + []) + (c + (d + e))) == (a + (b + (c + d))) + e
  {
  }

  lemma ReceiveKeepsAccount<B(!new)>(s: State<B>, i: nat, w: int)
    requires AccountMatches(s, w) && Enabled(s, ClientReceive(i)) && w != REQUEST && s.clients[i].waitOn != REQUEST
    ensures AccountMatches(Step(s, ClientReceive(i)), w)
  {
    hide Channel, Answers, Has, Without;
    var on := s.clients[i].waitOn;
    var rest, reply := Without(s.queue, on), Taken(s.queue, on);
    ReceiveTakesHead(s.queue, on, w);
    ReceiveTakesHead(s.queue, on, REQUEST);
    SendAppends(s.got, Message(on, reply), w);
    var here := if on == w then [reply] else [];
    assert Channel(s.queue, w) == here + Channel(rest, w);
    MoveInside(Channel(s.got, w), here, Channel(rest, w),
               HeldOn(s, w) + Answers(s.service, Channel(s.queue, REQUEST), w));
  }

  lemma MoveInside<B>(a: seq<B>, b: seq<B>, c: seq<B>, d: seq<B>)
    ensures a + ((b + c) + d) == (a + b) + (c + d)
    ensures [] + c == c
  {
  }

  lemma ServeKeepsAccount<B(!new)>(s: State<B>, w: int)
    requires AccountMatches(s, w) && Routed(s.service, s.clients) && Enabled(s, ServerReceive) && w != REQUEST
    ensures AccountMatches(Step(s, ServerReceive), w)
  {
    hide Channel, Answers, Has, Without;
    var v, b, rest := s.service, Taken(s.queue, REQUEST), Channel(Without(s.queue, REQUEST), REQUEST);
    ReceiveTakesHead(s.queue, REQUEST, w);
    AnswersConcat(v, [b], rest, w);
    AnswersOne(v, b, w);
    assert v.dest(v.serve(b)) == v.dest(b);
    assert HeldOn(Step(s, ServerReceive), w) == Answers(v, [b], w);
    assert Answers(v, Channel(s.queue, REQUEST), w) == Answers(v, [b], w) + Answers(v, rest, w);
  }

  lemma ReplyKeepsAccount<B(!new)>(s: State<B>, w: int)
    requires AccountMatches(s, w) && Enabled(s, ServerReply) && w != REQUEST && REQUEST !in HeldDest(s)
    ensures AccountMatches(Step(s, ServerReply), w)
  {
    hide Channel, Answers, Has;
    var m := Message(s.service.dest(s.held.value), s.held.value);
    SendAppends(s.queue, m, w);
    SendAppends(s.queue, m, REQUEST);
    var s' := Step(s, ServerReply);
    var rest := Answers(s.service, Channel(s.queue, REQUEST), w);
    assert HeldOn(s', w) == [];
    assert Channel(s'.queue, REQUEST) == Channel(s.queue, REQUEST) + [] == Channel(s.queue, REQUEST);
    assert Channel(s'.queue, w) == Channel(s.queue, w) + HeldOn(s, w);
    assert (Channel(s.queue, w) + HeldOn(s, w)) + ([] + rest) == Channel(s.queue, w) + (HeldOn(s, w) + rest);
  }

  lemma StepKeepsPending<B(!new)>(s: State<B>, a: Action)
    requires Inv(s) && Enabled(s, a)
    ensures Pending(Step(s, a))
  {
    hide Channel, First, Without, DestsMatch, AccountMatches, History;
    var s' := Step(s, a);
    match a
    case ClientSend(i) =>
      SendAppends(s.queue, Message(REQUEST, s.clients[i].request), REQUEST);
    case ClientReceive(i) =>
      ReceiveTakesHead(s.queue, s.clients[i].waitOn, REQUEST);
    case ServerReceive =>
      ReceiveTakesHead(s.queue, REQUEST, REQUEST);
      assert Channel(s'.queue, REQUEST) == Channel(s.queue, REQUEST)[1..];
    case ServerReply =>
      NotToServer(s);
      SendAppends(s.queue, Message(s.service.dest(s.held.value), s.held.value), REQUEST);
  }

  lemma StepKeepsHistory<B(!new)>(s: State<B>, a: Action)
    requires Inv(s) && Enabled(s, a)
    ensures History(Step(s, a))
  {
    hide Channel, Has, First, Without, DestsMatch, AccountMatches, Pending;
    var s' := Step(s, a);
    forall i | 0 <= i < |s'.clients| && s'.clients[i].pc.Done?
      ensures Message(s'.clients[i].waitOn, s'.clients[i].pc.reply) in s'.got
    {
      if a == ClientReceive(i) {
        assert s'.got[|s.got|] == Message(s'.clients[i].waitOn, s'.clients[i].pc.reply);
      } else {
        assert s'.clients[i] == s.clients[i];
      }
    }
  }

  lemma StepKeeps<B(!new)>(s: State<B>, a: Action)
    requires Inv(s) && Enabled(s, a)
    ensures Inv(Step(s, a))
  {
    hide Channel, Answers, Dests, Has, Without, Bag, DestsMatch, AccountMatches, Pending, History, HeldDest;
    StepKeepsPending(s, a);
    StepKeepsHistory(s, a);
    NotToServer(s);
    match a {
    case ClientSend(i) => SendKeepsDests(s, i);
    case ClientReceive(i) => ReceiveKeepsDests(s, i);
    case _ => ServeKeepsDests(s, a);
    }
    forall w: int | w != REQUEST
      ensures AccountMatches(Step(s, a), w)
    {
      assert AccountMatches(s, w);
      match a
      case ClientSend(i) => SendKeepsAccount(s, i, w);
      case ClientReceive(i) => ReceiveKeepsAccount(s, i, w);
      case ServerReceive => ServeKeepsAccount(s, w);
      case ServerReply => ReplyKeepsAccount(s, w);
    }
  }

  lemma InvInductive<B(!new)>()
    ensures Runs.Inductive(Next<B>, Inv<B>)
  {
    forall x: State<B>, x': State<B> | Inv(x) && Next(x, x')
      ensures Inv(x')
    {
      var a: Action :| Enabled(x, a) && x' == Step(x, a);
      StepKeeps(x, a);
    }
  }

  lemma InvReachable<B(!new)>(s0: State<B>, s: State<B>)
    requires Initial(s0) && Runs.Reachable(Next, s0, s)
    ensures Inv(s)
  {
    InitialKeeps(s0);
    InvInductive<B>();
    Runs.Kept(Next, Inv, s0, s);
  }

  /** What clients receive on a type is, in order, what the service owes for the requests sent
      for that type, in the order they were sent; the server takes requests in the order they
      were sent and never one of its own replies. */
  lemma RepliesInOrder<B(!new)>(s0: State<B>, s: State<B>, w: int)
    requires Initial(s0) && Runs.Reachable(Next, s0, s) && w != REQUEST
    ensures Channel(s.got, w) <= Answers(s.service, s.sent, w)
    ensures var waiting := |Channel(s.queue, REQUEST)|;
            Has(s.queue, REQUEST) ==> 0 < waiting <= |s.sent| && Taken(s.queue, REQUEST) == s.sent[|s.sent| - waiting]
  {
    InvReachable(s0, s);
    assert AccountMatches(s, w);
    if Has(s.queue, REQUEST) {
      ReceiveTakesHead(s.queue, REQUEST, w);
      var n := |s.sent| - |Channel(s.queue, REQUEST)|;
      assert Channel(s.queue, REQUEST)[0] == s.sent[n..][0] == s.sent[n];
    }
  }

  /** Each reply a client got answers a request that some client has sent, for the type this one
      waited on. */
  lemma ReplyAnswersRequest<B(!new)>(s0: State<B>, s: State<B>, i: nat) returns (j: nat)
    requires Initial(s0) && Runs.Reachable(Next, s0, s)
    requires i < |s.clients| && s.clients[i].pc.Done?
    ensures j in s.sentBy && j < |s.clients| && s.clients[j].waitOn == s.clients[i].waitOn
    ensures s.clients[i].pc.reply == s.service.serve(s.clients[j].request)
  {
    InvReachable(s0, s);
    var w, r := s.clients[i].waitOn, s.clients[i].pc.reply;
    var k :| 0 <= k < |s.got| && s.got[k] == Message(w, r);
    ChannelMember(s.got, w, r);
    RepliesInOrder(s0, s, w);
    assert r in Answers(s.service, s.sent, w);
    AnswersMember(s.service, s.sent, w, r);
    var n :| 0 <= n < |s.sent| && s.service.dest(s.sent[n]) == w && r == s.service.serve(s.sent[n]);
    j := s.sentBy[n];
  }
}
