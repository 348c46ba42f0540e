/** The broker of module3/02: registers of subscriptions and publishers kept in arrays, and the
    dispatch of the messages it receives (broker.c). */
module Broker {
  import opened BrokerMessages

  const MAX_SUBSCRIPTIONS := 200
  const MAX_PID_LIST := 100

  datatype Subscription = Subscription(pid: int, topic: string)

  /** A message on the queue: its type, which addresses it to a process, and its text. */
  datatype Message = Message(kind: int, text: string)

  datatype Registers = Registers(subscriptions: seq<Subscription>, publishers: seq<int>)

  /** A turn of the broker: the registers it leaves and the messages it puts on the queue. */
  datatype Turn = Turn(registers: Registers, sent: seq<Message>)

  /** `find_subscribers`. */
  function Subscribers(subscriptions: seq<Subscription>, topic: string): seq<int> {
    if subscriptions == [] then []
    else
      var n := |subscriptions| - 1;
      Subscribers(subscriptions[..n], topic)
      + if subscriptions[n].topic == topic then [subscriptions[n].pid] else []
  }

  function Position<T(==)>(register: seq<T>, x: T): (i: nat)
    ensures i <= |register| && x !in register[..i] && (i < |register| ==> register[i] == x)
  {
    if register == [] || register[0] == x then 0
    else
      var i := Position(register[1..], x);
      assert register[..i + 1] == [register[0]] + register[1..][..i];
      i + 1
  }

  /** `remove_subscription`: the first match, with the later entries moved up. */
  function Without<T(==)>(register: seq<T>, x: T): seq<T> {
    var i := Position(register, x);
    if i < |register| then register[..i] + register[i + 1..] else register
  }

  /** Lines 105-117 and 125-135: nothing twice, nothing beyond the limit. */
  function With<T(==)>(register: seq<T>, x: T, limit: nat): seq<T> {
    if x !in register && |register| < limit then register + [x] else register
  }

  /** Lines 145-155. */
  function Deliveries(pids: seq<int>, text: string): seq<Message> {
    if pids == [] then [] else Deliveries(pids[..|pids| - 1], text) + [Message(pids[|pids| - 1], text)]
  }

  /** Lines 104-160. */
  function Dispatch(r: Registers, m: Parsed): Turn {
    if m.command == "subscribe" then
      Turn(r.(subscriptions := With(r.subscriptions, Subscription(m.pid, m.topic), MAX_SUBSCRIPTIONS)), [])
    else if m.command == "unsubscribe" then
      Turn(r.(subscriptions := Without(r.subscriptions, Subscription(m.pid, m.topic))), [])
    else if m.command == "register" then
      Turn(r.(publishers := With(r.publishers, m.pid, MAX_PID_LIST)), [])
    else if m.command == "send" then
      Turn(r, Deliveries(Subscribers(r.subscriptions, m.topic), DeliveryText(m.topic, m.payload)))
    else Turn(r, [])
  }

  function Handle(r: Registers, text: string): Turn {
    var m := Parse(text);
    if m.None? then Turn(r, []) else Dispatch(r, m.value)
  }

  /** The registers and everything sent after handling the texts from the start. */
  function HandleAll(texts: seq<string>): Turn {
    if texts == [] then Turn(Registers([], []), [])
    else
      var before := HandleAll(texts[..|texts| - 1]);
      var turn := Handle(before.registers, texts[|texts| - 1]);
      Turn(turn.registers, before.sent + turn.sent)
  }

  /** The array of line 141 holds every subscriber that a "send" of the run finds. A topic can
      have more of them, and the source does not look. */
  ghost predicate Uncrowded(texts: seq<string>) {
    forall i :: 0 <= i < |texts| ==> FitsArray(HandleAll(texts[..i]).registers, texts[i])
  }

  ghost predicate FitsArray(r: Registers, text: string) {
    var m := Parse(text);
    m.Some? && m.value.command == "send" ==> |Subscribers(r.subscriptions, m.value.topic)| <= MAX_PID_LIST
  }

  // ---------- the arrays ----------

  lemma {:induction false} PositionReached<T>(register: seq<T>, x: T, i: nat)
    requires i <= |register| && x !in register[..i] && (i < |register| ==> register[i] == x)
    ensures Position(register, x) == i
  {
    var k := Position(register, x);
    assert forall j :: 0 <= j < i ==> register[..i][j] != x;
    assert forall j :: 0 <= j < k ==> register[..k][j] != x;
  }

  lemma {:induction false} ShiftedIs<T>(before: seq<T>, after: seq<T>, i: nat)
    requires i < |before| == |after| + 1
    requires forall k :: 0 <= k < i ==> after[k] == before[k]
    requires forall k :: i <= k < |after| ==> after[k] == before[k + 1]
    ensures after == before[..i] + before[i + 1..]
  {
  }

  class Server {
    const subscriptions: array<Subscription>
    var subCount: nat
    const publishers: array<int>
    var pubCount: nat

    ghost predicate Valid()
      reads this
    {
      && subscriptions.Length == MAX_SUBSCRIPTIONS && subCount <= MAX_SUBSCRIPTIONS
      && publishers.Length == MAX_PID_LIST && pubCount <= MAX_PID_LIST
    }

    ghost function Contents(): Registers
      reads this, subscriptions, publishers
      requires Valid()
    {
      Registers(subscriptions[..subCount], publishers[..pubCount])
    }

    constructor ()
      ensures Valid() && Contents() == Registers([], []) && fresh(subscriptions) && fresh(publishers)
    {
      subscriptions := new Subscription[MAX_SUBSCRIPTIONS](i => Subscription(0, ""));
      publishers := new int[MAX_PID_LIST](i => 0);
      subCount, pubCount := 0, 0;
    }

    /** Lines 9-17. The caller's array has to hold all that is found. */
    method FindSubscribers(topic: string, found: array<int>) returns (count: nat)
      requires Valid() && found != publishers
      requires |Subscribers(subscriptions[..subCount], topic)| <= found.Length
      modifies found
      ensures count <= found.Length && found[..count] == Subscribers(subscriptions[..subCount], topic)
    {
      ghost var all := subscriptions[..subCount];
      count := 0;
      var i := 0;
      while i < subCount
        invariant 0 <= i <= subCount == |all| && count <= found.Length
        invariant found[..count] == Subscribers(all[..i], topic)
      {
        ghost var before := found[..count];
        FoundSoFar(all, topic, i);
        assert all[i] == subscriptions[i];
        if subscriptions[i].topic == topic {
          found[count] := subscriptions[i].pid;
          count := count + 1;
          assert found[..count] == before + [all[i].pid];
        } else {
          assert before + [] == before;
        }
        i := i + 1;
      }
      assert all[..|all|] == all;
    }

    /** Lines 22-25. */
    method ShiftOut(i: nat)
      requires Valid() && i < subCount
      modifies this`subCount, subscriptions
      ensures Valid()
      ensures var before := old(subscriptions[..subCount]);
              subscriptions[..subCount] == before[..i] + before[i + 1..]
    {
      ghost var before := subscriptions[..subCount];
      var j := i;
      while j < subCount - 1
        invariant subCount == |before| && i <= j <= subCount - 1
        invariant forall k :: 0 <= k < i ==> subscriptions[k] == before[k]
        invariant forall k :: j <= k < subCount ==> subscriptions[k] == before[k]
        invariant forall k :: i <= k < j ==> subscriptions[k] == before[k + 1]
      {
        subscriptions[j] := subscriptions[j + 1];
        j := j + 1;
      }
      subCount := subCount - 1;
      ShiftedIs(before, subscriptions[..subCount], i);
    }

    /** Lines 19-29. */
    method RemoveSubscription(pid: int, topic: string)
      requires Valid()
      modifies this`subCount, subscriptions
      ensures Valid()
      ensures subscriptions[..subCount] == Without(old(subscriptions[..subCount]), Subscription(pid, topic))
    {
      ghost var before := subscriptions[..subCount];
      var i := 0;
      while i < subCount
        invariant 0 <= i <= subCount == |before|
        invariant subscriptions[..subCount] == before && Subscription(pid, topic) !in before[..i]
      {
        if subscriptions[i].pid == pid && subscriptions[i].topic == topic {
          PositionReached(before, Subscription(pid, topic), i);
          ShiftOut(i);
          return;
        }
        i := i + 1;
      }
      PositionReached(before, Subscription(pid, topic), i);
    }

    /** Lines 105-118. */
    method Subscribe(pid: int, topic: string)
      requires Valid()
      modifies this`subCount, subscriptions
      ensures Valid()
      ensures subscriptions[..subCount] ==
              With(old(subscriptions[..subCount]), Subscription(pid, topic), MAX_SUBSCRIPTIONS)
    {
      var already := false;
      var i := 0;
      while i < subCount
        invariant 0 <= i <= subCount && !already
        invariant Subscription(pid, topic) !in subscriptions[..i]
      {
        if subscriptions[i].pid == pid && subscriptions[i].topic == topic {
          already := true;
          break;
        }
        i := i + 1;
      }
      assert already <==> Subscription(pid, topic) in subscriptions[..subCount];
      if !already && subCount < MAX_SUBSCRIPTIONS {
        subscriptions[subCount] := Subscription(pid, topic);
        subCount := subCount + 1;
      }
    }

    /** Lines 125-136. */
    method Register(pid: int)
      requires Valid()
      modifies this`pubCount, publishers
      ensures Valid()
      ensures publishers[..pubCount] == With(old(publishers[..pubCount]), pid, MAX_PID_LIST)
    {
      var already := false;
      var i := 0;
      while i < pubCount
        invariant 0 <= i <= pubCount && !already && pid !in publishers[..i]
      {
        if publishers[i] == pid {
          already := true;
          break;
        }
        i := i + 1;
      }
      assert already <==> pid in publishers[..pubCount];
      if !already && pubCount < MAX_PID_LIST {
        publishers[pubCount] := pid;
        pubCount := pubCount + 1;
      }
    }

    /** Lines 141-155, with every `msgsnd` succeeding. */
    method Publish(topic: string, payload: string) returns (sent: seq<Message>)
      requires Valid() && |Subscribers(subscriptions[..subCount], topic)| <= MAX_PID_LIST
      ensures sent == Deliveries(Subscribers(subscriptions[..subCount], topic), DeliveryText(topic, payload))
    {
      var subscribers := new int[MAX_PID_LIST];
      var found := FindSubscribers(topic, subscribers);
      var text := DeliveryText(topic, payload);
      sent := [];
      var i := 0;
      while i < found
        invariant 0 <= i <= found && sent == Deliveries(subscribers[..i], text)
      {
        assert subscribers[..i + 1][..i] == subscribers[..i];
        sent := sent + [Message(subscribers[i], text)];
        i := i + 1;
      }
    }

    /** Lines 94-160. A "send" needs its topic to have no more subscribers than the array of
        `Publish` holds; the source does not check. */
    method HandleMessage(text: string) returns (sent: seq<Message>)
      requires Valid() && '\0' !in text && FitsArray(Contents(), text)
      modifies this`subCount, this`pubCount, subscriptions, publishers
      ensures Valid()
      ensures Turn(Contents(), sent) == Handle(old(Contents()), text)
    {
      sent := [];
      var ok, command, pid, topic, payload := ParseMessage(text);
      if !ok {
        return;
      }
      if command == "subscribe" {
        Subscribe(pid, topic);
      } else if command == "unsubscribe" {
        RemoveSubscription(pid, topic);
      } else if command == "register" {
        Register(pid);
      } else if command == "send" {
        sent := Publish(topic, payload);
      }
    }

    /** Lines 87-161, for the texts that arrive until the broker is stopped. */
    method Serve(texts: seq<string>) returns (sent: seq<Message>)
      requires Valid() && Contents() == Registers([], [])
      requires Uncrowded(texts) && forall i :: 0 <= i < |texts| ==> '\0' !in texts[i]
      modifies this`subCount, this`pubCount, subscriptions, publishers
      ensures Valid()
      ensures Turn(Contents(), sent) == HandleAll(texts)
    {
      sent := [];
      for i := 0 to |texts|
        invariant Valid() && Turn(Contents(), sent) == HandleAll(texts[..i])
      {
        assert texts[..i + 1][..i] == texts[..i];
        var more := HandleMessage(texts[i]);
        sent := sent + more;
      }
      assert texts[..|texts|] == texts;
    }
  }

  lemma {:induction false} FoundSoFar(subscriptions: seq<Subscription>, topic: string, i: nat)
    requires i < |subscriptions|
    ensures Subscribers(subscriptions[..i + 1], topic) ==
            Subscribers(subscriptions[..i], topic)
            + if subscriptions[i].topic == topic then [subscriptions[i].pid] else []
    ensures |Subscribers(subscriptions[..i + 1], topic)| <= |Subscribers(subscriptions, topic)|
  {
    assert subscriptions[..i + 1][..i] == subscriptions[..i];
    SubscribersGrow(subscriptions, topic, i + 1);
  }

  lemma {:induction false} SubscribersGrow(subscriptions: seq<Subscription>, topic: string, i: nat)
    requires i <= |subscriptions|
    ensures |Subscribers(subscriptions[..i], topic)| <= |Subscribers(subscriptions, topic)|
  {
    var n := |subscriptions| - 1;
    if i <= n {
      assert subscriptions[..n][..i] == subscriptions[..i];
      SubscribersGrow(subscriptions[..n], topic, i);
    } else {
      assert subscriptions[..i] == subscriptions;
    }
  }
}
