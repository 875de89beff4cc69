/** When the request/reply protocol gets stuck: exactly when more clients may be served at once
  than the queue has room for messages.
 */
module Progress {
  import opened MessageQueue
  import opened RequestReply
  import opened Sums
  import Runs

  ghost function User<B(!new)>(c: Client<B>): int {
    if c.pc == Rejected then 0 else 1
  }

  ghost function IsSending<B(!new)>(c: Client<B>): int {
    if c.pc == Sending then 1 else 0
  }

  ghost function IsWaiting<B(!new)>(c: Client<B>): int {
    if c.pc == Waiting then 1 else 0
  }

  // The clients that use the server at all.
  ghost function Users<B(!new)>(s: State<B>): int {
    Sum(User, s.clients)
  }

  ghost predicate Unserved<B(!new)>(s: State<B>) {
    exists i :: 0 <= i < |s.clients| && (s.clients[i].pc == Sending || s.clients[i].pc == Waiting)
  }

  ghost function HeldCount<B(!new)>(s: State<B>): int {
    if s.held.Some? then 1 else 0
  }

  lemma {:induction false} BagSize<B(!new)>(cs: seq<Client<B>>)
    ensures |Bag(Waits, cs)| == Sum(IsWaiting, cs)
  {
    if cs != [] {
      BagSize(cs[1..]);
    }
  }

  /** Every waiting client has one message in flight, and there are no others. */
  lemma InFlight<B(!new)>(s: State<B>)
    requires Inv(s)
    ensures |s.queue| + HeldCount(s) == Sum(IsWaiting, s.clients)
  {
    DestsSize(s.service, s.queue);
    BagSize(s.clients);
    assert |Dests(s.service, s.queue) + HeldDest(s)| == |Dests(s.service, s.queue)| + |HeldDest(s)|;
  }

  /** With room for one message per client no send ever blocks. */
  lemma SendsNeverBlock<B(!new)>(s: State<B>)
    requires Inv(s) && Users(s) <= s.service.capacity
    ensures (exists i :: 0 <= i < |s.clients| && s.clients[i].pc == Sending) || s.held.Some? ==>
              |s.queue| < s.service.capacity
  {
    InFlight(s);
    SumLe(IsWaiting, User, s.clients);
    if i :| 0 <= i < |s.clients| && s.clients[i].pc == Sending {
      var cs := s.clients[i := s.clients[i].(pc := Waiting)];
      SumUpdate(IsWaiting, s.clients, i, cs[i]);
      SumUpdate(User, s.clients, i, cs[i]);
      SumLe(IsWaiting, User, cs);
    }
  }

  lemma QuietWhenServed<B(!new)>(s: State<B>)
    requires Inv(s) && !Unserved(s)
    ensures s.queue == [] && s.held.None? && Runs.Terminal(Next, s)
  {
    SumConstant(IsWaiting, s.clients, 0);
    InFlight(s);
  }

  // The message a waiting client waits for can be moved on.
  lemma WaitingMoves<B(!new)>(s: State<B>, i: nat) returns (a: Action)
    requires Inv(s) && i < |s.clients| && s.clients[i].pc == Waiting
    requires s.held.Some? ==> |s.queue| < s.service.capacity
    ensures Enabled(s, a)
  {
    if s.held.Some? {
      a := ServerReply;
    } else {
      var w := s.clients[i].waitOn;
      BagMember(Waits, s.clients, w);
      DestsMember(s.service, s.queue, w);
      var k :| 0 <= k < |s.queue| && DestOf(s.service, s.queue[k]) == w;
      a := if s.queue[k].mtype == REQUEST then ServerReceive else ClientReceive(i);
    }
  }

  /** With room for one message per client the only final states are those with every client
      served; the queue is then empty and the server idle. */
  lemma OnlyServedIsFinal<B(!new)>(s: State<B>)
    requires Inv(s) && Users(s) <= s.service.capacity
    ensures Runs.Terminal(Next, s) <==> !Unserved(s)
  {
    if !Unserved(s) {
      QuietWhenServed(s);
    } else {
      var i: nat :| i < |s.clients| && (s.clients[i].pc == Sending || s.clients[i].pc == Waiting);
      SendsNeverBlock(s);
      var a := ClientSend(i);
      if s.clients[i].pc == Waiting {
        a := WaitingMoves(s, i);
      }
      assert Next(s, Step(s, a));
    }
  }

  // ----- Every run ends -----

  // Steps still to take: four for a request not yet sent, three, two and one on its way.
  ghost function Measure<B(!new)>(s: State<B>): int {
    4 * Sum(IsSending, s.clients) + |s.queue| + 2 * |Channel(s.queue, REQUEST)| + 2 * HeldCount(s)
  }

  lemma ClientStepLowers<B(!new)>(s: State<B>, a: Action)
    requires Inv(s) && Enabled(s, a) && (a.ClientSend? || a.ClientReceive?)
    ensures Measure(Step(s, a)) == Measure(s) - 1
  {
    hide Inv, Channel, Sum, Without;
    var s' := Step(s, a);
    SumUpdate(IsSending, s.clients, a.i, s'.clients[a.i]);
    if a.ClientSend? {
      SendAppends(s.queue, Message(REQUEST, s.clients[a.i].request), REQUEST);
    } else {
      assert s.clients[a.i].waitOn != REQUEST by {
        NotARequest(s, a.i);
      }
      ReceiveTakesHead(s.queue, s.clients[a.i].waitOn, REQUEST);
      WithoutIsShorter(s.queue, s.clients[a.i].waitOn);
    }
  }

  lemma NotARequest<B(!new)>(s: State<B>, i: nat)
    requires Inv(s) && i < |s.clients|
    ensures s.clients[i].waitOn != REQUEST
  {
  }

  lemma WithoutIsShorter<B>(q: seq<Message<B>>, mtype: int)
    requires Has(q, mtype)
    ensures |Without(q, mtype)| == |q| - 1
  {
  }

  lemma ServerStepLowers<B(!new)>(s: State<B>, a: Action)
    requires Inv(s) && Enabled(s, a) && (a == ServerReceive || a == ServerReply)
    ensures Measure(Step(s, a)) == Measure(s) - 1
  {
    NotToServer(s);
    hide Inv, Channel, Sum, Without;
    if a == ServerReceive {
      ReceiveTakesHead(s.queue, REQUEST, REQUEST);
      WithoutIsShorter(s.queue, REQUEST);
    } else {
      SendAppends(s.queue, Message(s.service.dest(s.held.value), s.held.value), REQUEST);
    }
  }

  lemma StepLowers<B(!new)>(s: State<B>, a: Action)
    requires Inv(s) && Enabled(s, a)
    ensures Measure(Step(s, a)) == Measure(s) - 1
    ensures 0 <= Measure(Step(s, a))
  {
    if a == ServerReceive || a == ServerReply {
      ServerStepLowers(s, a);
    } else {
      ClientStepLowers(s, a);
    }
    SumNonNegative(IsSending, Step(s, a).clients);
  }

  lemma StepKeepsUsers<B(!new)>(s: State<B>, a: Action)
    requires Enabled(s, a)
    ensures Users(Step(s, a)) == Users(s) && Step(s, a).service == s.service
  {
    var s' := Step(s, a);
    match a
    case ClientSend(i) => SumUpdate(User, s.clients, i, s'.clients[i]);
    case ClientReceive(i) => SumUpdate(User, s.clients, i, s'.clients[i]);
    case _ =>
  }

  lemma UsersReachable<B(!new)>(s0: State<B>, s: State<B>)
    requires Initial(s0) && Runs.Reachable(Next, s0, s)
    ensures Inv(s) && Users(s) == Users(s0) && s.service == s0.service
  {
    InvReachable(s0, s);
    var inv := (x: State<B>) => Users(x) == Users(s0) && x.service == s0.service;
    forall x: State<B>, x': State<B> | inv(x) && Next(x, x')
      ensures inv(x')
    {
      var a: Action :| Enabled(x, a) && x' == Step(x, a);
      StepKeepsUsers(x, a);
    }
    Runs.Kept(Next, inv, s0, s);
  }

  lemma InitialMeasure<B(!new)>(s: State<B>)
    requires Initial(s)
    ensures Measure(s) == 4 * Users(s)
  {
    SumLe(IsSending, User, s.clients);
    SumLe(User, IsSending, s.clients);
  }

  lemma NextCounts<B(!new)>(s: State<B>, s': State<B>)
    requires Inv(s) && Next(s, s')
    ensures Inv(s') && Measure(s') == Measure(s) - 1
  {
    hide Inv, Measure, Step, Enabled;
    var a: Action :| Enabled(s, a) && s' == Step(s, a);
    StepKeeps(s, a);
    StepLowers(s, a);
  }

  /** No run takes more than four steps for each client, whatever the capacity, and a run that
      has served every client took exactly that many. */
  lemma {:induction false} RunsAreShort<B(!new)>(run: seq<State<B>>)
    requires Runs.IsRun(Next, run) && Initial(run[0])
    ensures |run| - 1 <= 4 * Users(run[0])
    ensures !Unserved(run[|run| - 1]) ==> |run| - 1 == 4 * Users(run[0])
  {
    hide Inv, Measure, Users, Unserved, Next, Initial;
    InitialKeeps(run[0]);
    forall x: State<B>, x': State<B> | Inv(x) && Next(x, x')
      ensures Inv(x') && Measure(x') == Measure(x) - 1
    {
      NextCounts(x, x');
    }
    Runs.Counted(Next, Inv, Measure, run);
    Runs.KeptAt(Next, Inv, run, |run| - 1);
    InitialMeasure(run[0]);
    MeasureAtEnd(run[|run| - 1]);
  }

  lemma MeasureAtEnd<B(!new)>(s: State<B>)
    requires Inv(s)
    ensures 0 <= Measure(s)
    ensures !Unserved(s) ==> Measure(s) == 0
  {
    SumNonNegative(IsSending, s.clients);
    if !Unserved(s) {
      QuietWhenServed(s);
      SumConstant(IsSending, s.clients, 0);
    }
  }

  // ----- Under a script -----

  // The calls of k clients and the server.
  ghost function Calls(k: nat): (all: set<Action>)
    ensures forall a: Action :: a in all <==> (a.ClientSend? || a.ClientReceive? ==> a.i < k)
  {
    if k == 0 then {ServerReceive, ServerReply} else Calls(k - 1) + {ClientSend(k - 1), ClientReceive(k - 1)}
  }

  lemma CallsDescend<B(!new)>(k: nat)
    ensures Runs.Descends(Enabled<B>, Turn<B>, (x: State<B>) => Inv(x) && |x.clients| == k, Measure<B>, Calls(k))
  {
    var inv := (x: State<B>) => Inv(x) && |x.clients| == k;
    hide Inv, Measure, Step;
    forall s: State<B>, a: Action, s': State<B> | inv(s) && Turn(s, a, s')
      ensures inv(s') && if Enabled(s, a) then Measure(s') < Measure(s) else s' == s
    {
      if Enabled(s, a) {
        StepKeeps(s, a);
        StepLowers(s, a);
        SameNumber(s, a);
      }
    }
    forall s: State<B>, a: Action | inv(s) && Enabled(s, a)
      ensures 0 < Measure(s) && exists b: Action :: b in Calls(k) && Enabled(s, b)
    {
      StepLowers(s, a);
      assert a in Calls(k);
    }
  }

  lemma SameNumber<B(!new)>(s: State<B>, a: Action)
    requires Enabled(s, a)
    ensures |Step(s, a).clients| == |s.clients|
  {
  }

  /** With room for one message per client, any script with four rounds of all calls for each
      client, however it is arranged otherwise, has every client served. */
  lemma RoundsServe<B(!new)>(run: seq<State<B>>, script: seq<Action>, r: nat)
    requires Runs.Plays(Turn, run, script) && Initial(run[0]) && Users(run[0]) <= run[0].service.capacity
    requires Runs.HasRounds(script, Calls(|run[0].clients|), r) && 4 * Users(run[0]) <= r
    ensures Runs.Reachable(Next, run[0], run[|script|]) && !Unserved(run[|script|])
  {
    var k, last := |run[0].clients|, run[|script|];
    var inv := (x: State<B>) => Inv(x) && |x.clients| == k;
    Runs.PlayReaches(Next, Turn, run, script);
    InitialKeeps(run[0]);
    InitialMeasure(run[0]);
    UsersReachable(run[0], last);
    CallsDescend<B>(k);
    assert inv(run[0]);
    hide Inv, Measure, Step, Enabled, Users, Unserved, Initial;
    Runs.EnoughRounds(Enabled, Turn, inv, Measure, Calls(k), run, script, r);
    OnlyServedIsFinal(last);
  }

  // ----- With too little room it can hang -----

  // The server holds a reply and the queue holds requests only.
  ghost predicate Clogging<B(!new)>(s: State<B>) {
    && Inv(s)
    && s.held.Some?
    && |s.queue| <= s.service.capacity
    && (forall k :: 0 <= k < |s.queue| ==> s.queue[k].mtype == REQUEST)
    && forall i :: 0 <= i < |s.clients| ==> !s.clients[i].pc.Done?
  }

  lemma {:induction false} UsersSplit<B(!new)>(cs: seq<Client<B>>)
    requires forall i :: 0 <= i < |cs| ==> !cs[i].pc.Done?
    ensures Sum(User, cs) == Sum(IsSending, cs) + Sum(IsWaiting, cs)
  {
    if cs != [] {
      UsersSplit(cs[1..]);
    }
  }

  lemma SomeSender<B(!new)>(cs: seq<Client<B>>) returns (i: nat)
    requires Sum(IsSending, cs) > 0
    ensures i < |cs| && cs[i].pc == Sending
  {
    if forall k :: 0 <= k < |cs| ==> cs[k].pc != Sending {
      SumConstant(IsSending, cs, 0);
      assert false;
    } else {
      i :| 0 <= i < |cs| && cs[i].pc == Sending;
    }
  }

  // A full queue of requests and a reply in the server's hands: nobody can move.
  lemma CloggedIsStuck<B(!new)>(s: State<B>)
    requires Clogging(s) && |s.queue| == s.service.capacity
    ensures Runs.Terminal(Next, s) && Unserved(s)
  {
    InFlight(s);
    if !Unserved(s) {
      SumConstant(IsWaiting, s.clients, 0);
    }
    forall s': State<B>
      ensures !Next(s, s')
    {
      forall a: Action
        ensures !Enabled(s, a)
      {
      }
    }
  }

  lemma {:induction false} Clog<B(!new)>(s0: State<B>, s: State<B>) returns (s': State<B>)
    requires Runs.Reachable(Next, s0, s) && Clogging(s) && s.service.capacity < Users(s)
    ensures Runs.Reachable(Next, s0, s') && Runs.Terminal(Next, s') && Unserved(s')
    decreases s.service.capacity - |s.queue|
  {
    if |s.queue| == s.service.capacity {
      CloggedIsStuck(s);
      s' := s;
    } else {
      InFlight(s);
      UsersSplit(s.clients);
      var i := SomeSender(s.clients);
      var m := Step(s, ClientSend(i));
      StepKeeps(s, ClientSend(i));
      StepKeepsUsers(s, ClientSend(i));
      assert Next(s, m);
      Runs.ThenStep(Next, s0, s, m);
      s' := Clog(s0, m);
    }
  }

  // One client sends, and the server takes its request.
  lemma FirstTaken<B(!new)>(s0: State<B>, i: nat) returns (s: State<B>)
    requires Initial(s0) && 0 < s0.service.capacity && i < |s0.clients| && s0.clients[i].pc == Sending
    ensures Runs.Reachable(Next, s0, s) && Clogging(s) && s.service == s0.service && Users(s) == Users(s0)
  {
    hide Inv, Users;
    Runs.Stay(Next, s0);
    InitialKeeps(s0);
    var a := Step(s0, ClientSend(i));
    StepKeeps(s0, ClientSend(i));
    StepKeepsUsers(s0, ClientSend(i));
    assert Next(s0, a);
    Runs.ThenStep(Next, s0, s0, a);
    assert a.queue[0].mtype == REQUEST;
    s := Step(a, ServerReceive);
    StepKeeps(a, ServerReceive);
    StepKeepsUsers(a, ServerReceive);
    assert Next(a, s);
    Runs.ThenStep(Next, s0, a, s);
  }

  lemma NoRoomAtAll<B(!new)>(s: State<B>, i: nat)
    requires Initial(s) && s.service.capacity == 0 && i < |s.clients| && s.clients[i].pc == Sending
    ensures Runs.Terminal(Next, s) && Unserved(s)
  {
  }

  lemma HangsWhenFull<B(!new)>(s0: State<B>) returns (s': State<B>)
    requires Initial(s0) && s0.service.capacity < Users(s0)
    ensures Runs.Reachable(Next, s0, s') && Runs.Terminal(Next, s') && Unserved(s')
  {
    var i := FirstSender(s0);
    hide Initial, Clogging, Users, Unserved, Next;
    if s0.service.capacity == 0 {
      Runs.Stay(Next, s0);
      NoRoomAtAll(s0, i);
      s' := s0;
    } else {
      var s := FirstTaken(s0, i);
      s' := Clog(s0, s);
    }
  }

  lemma FirstSender<B(!new)>(s: State<B>) returns (i: nat)
    requires Initial(s) && 0 < Users(s)
    ensures i < |s.clients| && s.clients[i].pc == Sending
  {
    InitialMeasure(s);
    i := SomeSender(s.clients);
  }

  /** The protocol never gets stuck with a client unserved if and only if the queue has room for
      one message of each client. */
  lemma StuckIffTooManyClients<B(!new)>(s0: State<B>)
    requires Initial(s0)
    ensures (forall s: State<B> :: Runs.Reachable(Next, s0, s) && Runs.Terminal(Next, s) ==> !Unserved(s))
            <==> Users(s0) <= s0.service.capacity
  {
    if Users(s0) <= s0.service.capacity {
      forall s: State<B> | Runs.Reachable(Next, s0, s) && Runs.Terminal(Next, s)
        ensures !Unserved(s)
      {
        UsersReachable(s0, s);
        OnlyServedIsFinal(s);
      }
    } else {
      var s := HangsWhenFull(s0);
    }
  }
}
