/** A System V message queue with blocking calls and messages of a type: msgsnd appends,
  msgrcv with a positive type takes the first message of that type. See msgsnd() and msgrcv()
  in the System Interfaces volume of POSIX.1-2017.
 */
module MessageQueue {
  import opened Options

  datatype Message<B> = Message(mtype: int, body: B)

  /** The messages of one type, in order: what receivers of that type see of the queue. */
  function Channel<B>(q: seq<Message<B>>, mtype: int): seq<B> {
    if q == [] then []
    else (if q[0].mtype == mtype then [q[0].body] else []) + Channel(q[1..], mtype)
  }

  predicate Has<B>(q: seq<Message<B>>, mtype: int) {
    exists i :: 0 <= i < |q| && q[i].mtype == mtype
  }

  // The position of the first message of a type.
  function First<B>(q: seq<Message<B>>, mtype: int): (k: nat)
    requires Has(q, mtype)
    ensures k < |q| && q[k].mtype == mtype && forall i :: 0 <= i < k ==> q[i].mtype != mtype
  {
    if q[0].mtype == mtype then 0
    else
      assert Has(q[1..], mtype) by {
        var i :| 0 <= i < |q| && q[i].mtype == mtype;
        assert q[1..][i - 1].mtype == mtype;
      }
      1 + First(q[1..], mtype)
  }

  function Without<B>(q: seq<Message<B>>, mtype: int): seq<Message<B>>
    requires Has(q, mtype)
  {
    var k := First(q, mtype);
    q[..k] + q[k + 1..]
  }

  function Taken<B>(q: seq<Message<B>>, mtype: int): B
    requires Has(q, mtype)
  {
    q[First(q, mtype)].body
  }

  lemma {:induction false} ChannelConcat<B>(a: seq<Message<B>>, b: seq<Message<B>>, mtype: int)
    ensures Channel(a + b, mtype) == Channel(a, mtype) + Channel(b, mtype)
  {
    if a == [] {
      assert a + b == b;
    } else {
      var head := if a[0].mtype == mtype then [a[0].body] else [];
      assert (a + b)[1..] == a[1..] + b && (a + b)[0] == a[0];
      ChannelConcat(a[1..], b, mtype);
      assert Channel(a, mtype) == head + Channel(a[1..], mtype);
      assert Channel(a + b, mtype) == head + Channel(a[1..] + b, mtype);
    }
  }

  lemma {:induction false} ChannelEmpty<B>(q: seq<Message<B>>, mtype: int)
    ensures Channel(q, mtype) == [] <==> !Has(q, mtype)
  {
    if q != [] {
      ChannelEmpty(q[1..], mtype);
      if Has(q[1..], mtype) {
        var i :| 0 <= i < |q[1..]| && q[1..][i].mtype == mtype;
        assert q[i + 1].mtype == mtype;
      }
      if Has(q, mtype) && q[0].mtype != mtype {
        var i :| 0 <= i < |q| && q[i].mtype == mtype;
        assert q[1..][i - 1].mtype == mtype;
      }
    }
  }

  lemma {:induction false} ChannelLength<B>(q: seq<Message<B>>, mtype: int)
    ensures |Channel(q, mtype)| <= |q|
    ensures |Channel(q, mtype)| == |q| <==> forall i :: 0 <= i < |q| ==> q[i].mtype == mtype
  {
    if q != [] {
      ChannelLength(q[1..], mtype);
      if forall i :: 0 <= i < |q[1..]| ==> q[1..][i].mtype == mtype {
        forall i | 0 < i < |q|
          ensures q[i].mtype == mtype
        {
          assert q[1..][i - 1].mtype == mtype;
        }
      }
    }
  }

  lemma {:induction false} ChannelMember<B>(q: seq<Message<B>>, mtype: int, b: B)
    ensures b in Channel(q, mtype) <==> exists i :: 0 <= i < |q| && q[i] == Message(mtype, b)
  {
    if q != [] {
      ChannelMember(q[1..], mtype, b);
      if i :| 0 <= i < |q[1..]| && q[1..][i] == Message(mtype, b) {
        assert q[i + 1] == Message(mtype, b);
      }
      if i :| 0 <= i < |q| && q[i] == Message(mtype, b) {
        if i > 0 {
          assert q[1..][i - 1] == Message(mtype, b);
        }
      }
    }
  }

  lemma ChannelAt<B>(q: seq<Message<B>>, k: nat, mtype: int)
    requires k < |q|
    ensures Channel(q, mtype) ==
            Channel(q[..k], mtype) + (if q[k].mtype == mtype then [q[k].body] else []) + Channel(q[k + 1..], mtype)
  {
    assert q == q[..k] + ([q[k]] + q[k + 1..]);
    ChannelConcat(q[..k], [q[k]] + q[k + 1..], mtype);
    ChannelConcat([q[k]], q[k + 1..], mtype);
    assert Channel([q[k]], mtype) == (if q[k].mtype == mtype then [q[k].body] else []) + Channel([q[k]][1..], mtype);
  }

  /** msgrcv takes the head of the channel of its type and leaves every other channel alone: a
      typed queue is a family of independent first-in first-out channels. */
  lemma ReceiveTakesHead<B>(q: seq<Message<B>>, mtype: int, other: int)
    requires Has(q, mtype)
    ensures Channel(q, mtype) == [Taken(q, mtype)] + Channel(Without(q, mtype), mtype)
    ensures other != mtype ==> Channel(Without(q, mtype), other) == Channel(q, other)
  {
    var k := First(q, mtype);
    ChannelAt(q, k, mtype);
    ChannelAt(q, k, other);
    ChannelConcat(q[..k], q[k + 1..], mtype);
    ChannelConcat(q[..k], q[k + 1..], other);
    ChannelEmpty(q[..k], mtype);
  }

  /** msgsnd appends to the channel of its type and leaves every other channel alone. */
  lemma SendAppends<B>(q: seq<Message<B>>, m: Message<B>, mtype: int)
    ensures Channel(q + [m], mtype) == Channel(q, mtype) + if m.mtype == mtype then [m.body] else []
  {
    ChannelConcat(q, [m], mtype);
    assert Channel([m], mtype) == (if m.mtype == mtype then [m.body] else []) + Channel([m][1..], mtype);
  }

  /** The queue in place. The calls return false, or nothing, where the system call would block. */
  class Queue<B> {
    const capacity: nat
    var messages: seq<Message<B>>

    constructor (capacity: nat)
      ensures messages == [] && this.capacity == capacity
    {
      this.capacity := capacity;
      messages := [];
    }

    method Send(m: Message<B>) returns (sent: bool)
      modifies this
      ensures sent == (|old(messages)| < capacity)
      ensures messages == if sent then old(messages) + [m] else old(messages)
    {
      sent := |messages| < capacity;
      if sent {
        messages := messages + [m];
      }
    }

    method Receive(mtype: int) returns (r: Option<B>)
      modifies this
      ensures r.Some? == Has(old(messages), mtype)
      ensures r.Some? ==> r.value == Taken(old(messages), mtype) && messages == Without(old(messages), mtype)
      ensures r.None? ==> messages == old(messages)
    {
      for i := 0 to |messages|
        invariant messages == old(messages)
        invariant forall j :: 0 <= j < i ==> messages[j].mtype != mtype
      {
        if messages[i].mtype == mtype {
          assert First(messages, mtype) == i;
          r := Some(messages[i].body);
          messages := messages[..i] + messages[i + 1..];
          return;
        }
      }
      return None;
    }
  }
}
