/** Who receives what when `broadcast_message` (module3/07/server.c, lines 320-329) runs into
    dead clients, whatever their number and places in the table. */
module ChatDelivery {
  import opened ChatMessages
  import opened ChatTable
  import opened Sequences

  ghost function ReceivedFrom(e: Event, fd: int): seq<Message> {
    if e.Sent? && e.fd == fd then [e.message] else []
  }

  ghost function Received(log: seq<Event>, fd: int): seq<Message> {
    if log == [] then [] else ReceivedFrom(log[0], fd) + Received(log[1..], fd)
  }

  ghost predicate DistinctFds(table: seq<Client>) {
    forall i, j :: 0 <= i < j < |table| ==> table[i].fd != table[j].fd
  }

  ghost predicate Listed(table: seq<Client>, fd: int) {
    exists i :: 0 <= i < |table| && table[i].fd == fd
  }

  /** The notices that the dead clients of a table leave behind, in table order. */
  ghost function Notices(table: seq<Client>, dead: set<int>): seq<Message> {
    NoticesOf(Dead(table, dead))
  }

  ghost function NoticesOf(gone: seq<Client>): seq<Message> {
    seq(|gone|, i requires 0 <= i < |gone| => LeaveMessage(gone[i].nickname))
  }

  ghost function Reverse<T>(s: seq<T>): (r: seq<T>)
    ensures |r| == |s|
  {
    if s == [] then [] else Reverse(s[1..]) + [s[0]]
  }

  /** The order in which a client standing behind `k` dead ones gets the messages of the nested
      broadcasts: the inner ones on the way down, the outer ones on the way back up. */
  ghost function Inbox(all: seq<Message>, k: nat): seq<Message>
    requires k <= |all|
  {
    all[k..] + Reverse(all[..k])
  }

  // ---------- bookkeeping ----------

  lemma {:induction false} ReceivedJoin(a: seq<Event>, b: seq<Event>, fd: int)
    ensures Received(a + b, fd) == Received(a, fd) + Received(b, fd)
  {
    if a == [] {
      assert a + b == b;
    } else {
      ReceivedJoin(a[1..], b, fd);
      assert (a + b)[1..] == a[1..] + b;
      Associative(ReceivedFrom(a[0], fd), Received(a[1..], fd), Received(b, fd));
    }
  }

  lemma {:induction false} ReceivedDeliveries(table: seq<Client>, m: Message, sender: int, fd: int)
    requires DistinctFds(table)
    ensures Received(Deliveries(table, m, sender), fd) == if Listed(table, fd) && fd != sender then [m] else []
  {
    if table != [] {
      var rest := table[1..];
      ReceivedDeliveries(rest, m, sender, fd);
      ReceivedJoin(Delivery(table[0], m, sender), Deliveries(rest, m, sender), fd);
      ReceivedDelivery(table[0], m, sender, fd);
      assert table == [table[0]] + rest;
      ListedSplit(table[0], rest, fd);
      if table[0].fd == fd {
        assert forall i :: 0 <= i < |rest| ==> rest[i] == table[i + 1];
        assert !Listed(rest, fd);
      }
    }
  }

  lemma {:induction false} ReceivedDelivery(c: Client, m: Message, sender: int, fd: int)
    ensures Received(Delivery(c, m, sender), fd) == if c.fd == fd && fd != sender then [m] else []
  {
    assert [Sent(c.fd, m)][1..] == [];
  }

  lemma {:induction false} LiveListed(table: seq<Client>, dead: set<int>, fd: int)
    ensures Listed(Live(table, dead), fd) <==> Listed(table, fd) && fd !in dead
    ensures DistinctFds(table) ==> DistinctFds(Live(table, dead))
  {
    if table != [] {
      var rest := table[1..];
      LiveListed(rest, dead, fd);
      LiveListed(rest, dead, table[0].fd);
      ListedSplit(table[0], rest, fd);
      if table[0].fd !in dead {
        ListedSplit(table[0], Live(rest, dead), fd);
      }
      if DistinctFds(table) {
        forall i | 0 <= i < |rest| ensures table[0].fd != rest[i].fd {
          assert table[i + 1] == rest[i];
        }
        assert !Listed(rest, table[0].fd);
        assert !Listed(Live(rest, dead), table[0].fd);
      }
    }
  }

  lemma {:induction false} ListedSplit(c: Client, rest: seq<Client>, fd: int)
    ensures Listed([c] + rest, fd) <==> c.fd == fd || Listed(rest, fd)
  {
    if c.fd == fd {
      assert ([c] + rest)[0].fd == fd;
    } else if Listed(rest, fd) {
      var i :| 0 <= i < |rest| && rest[i].fd == fd;
      assert ([c] + rest)[i + 1].fd == fd;
    }
  }

  lemma {:induction false} ReverseMultiset<T>(s: seq<T>)
    ensures multiset(Reverse(s)) == multiset(s)
  {
    if s != [] {
      ReverseMultiset(s[1..]);
      assert s == [s[0]] + s[1..];
    }
  }

  lemma {:induction false} InboxMultiset(all: seq<Message>, k: nat)
    requires k <= |all|
    ensures multiset(Inbox(all, k)) == multiset(all)
  {
    ReverseMultiset(all[..k]);
    assert all == all[..k] + all[k..];
  }

  /** Nothing dead stands before the first failure, when the sender itself is not dead. */
  lemma {:induction false} FrontIsLive(table: seq<Client>, dead: set<int>, sender: int)
    requires sender !in dead
    ensures var k := FirstDead(table, dead, sender);
            && Live(table[..k], dead) == table[..k] && Dead(table[..k], dead) == []
            && Live(table, dead) == table[..k] + Live(table[k..], dead)
  {
    var k := FirstDead(table, dead, sender);
    LiveIsLive(table[..k], dead);
    assert table == table[..k] + table[k..];
    SelectJoin(table[..k], table[k..], dead, true);
  }

  /** How the broadcast splits at the first dead client when the sender is not dead. */
  lemma {:induction false} Split(table: seq<Client>, dead: set<int>, m: Message, sender: int)
    returns (k: nat, nested: seq<Event>)
    requires sender !in dead && FirstDead(table, dead, sender) < |table|
    ensures k == FirstDead(table, dead, sender) && Dead(table[..k], dead) == []
    ensures nested == Cascade(Without(table, k), dead, LeaveMessage(table[k].nickname), NOBODY)
    ensures Cascade(table, dead, m, sender) ==
            Deliveries(table[..k], m, sender) + [Failed(table[k].fd, m), Closed(table[k].fd)] + nested +
            Deliveries(Live(table[k + 1..], dead), m, sender)
    ensures Dead(table, dead) == [table[k]] + Dead(table[k + 1..], dead)
    ensures Dead(Without(table, k), dead) == Dead(table[k + 1..], dead)
  {
    k := FirstDead(table, dead, sender);
    nested := Cascade(Without(table, k), dead, LeaveMessage(table[k].nickname), NOBODY);
    FrontIsLive(table, dead, sender);
    LiveWithout(table, dead, k);
    var live := Live(table, dead);
    assert table[k..][1..] == table[k + 1..];
    assert live[Min(k, |live|)..] == Live(table[k + 1..], dead);
  }

  // ---------- what each live client receives, and in which order ----------

  /** The message a client receives from one broadcast, seen from the client's place. */
  ghost function Expected(table: seq<Client>, dead: set<int>, m: Message, sender: int, p: nat): seq<Message>
    requires p < |table|
  {
    var notices := Notices(table, dead);
    var k := |Dead(table[..p], dead)|;
    if table[p].fd != sender then (if k <= |notices| then Inbox([m] + notices, k) else [])
    else if 1 <= k <= |notices| then Inbox(notices, k - 1)
    else notices
  }

  lemma {:induction false} Places(table: seq<Client>, dead: set<int>, k: nat, p: nat)
    requires k < |table| && p < |table| && p != k && table[k].fd in dead && Dead(table[..k], dead) == []
    ensures p < k ==> Dead(table[..p], dead) == [] && Without(table, k)[..p] == table[..p]
    ensures p > k ==> |Dead(table[..p], dead)| == 1 + |Dead(Without(table, k)[..p - 1], dead)|
    ensures |Dead(table[..p], dead)| <= |Dead(table, dead)|
    ensures Without(table, k)[if p < k then p else p - 1] == table[p]
  {
    assert table == table[..p] + table[p..];
    SelectJoin(table[..p], table[p..], dead, false);
    if p < k {
      assert table[..k] == table[..p] + table[p..k];
      SelectJoin(table[..p], table[p..k], dead, false);
    } else {
      var mid := table[k + 1..p];
      assert table[..p] == table[..k] + ([table[k]] + mid);
      assert Without(table, k)[..p - 1] == table[..k] + mid;
      SelectJoin(table[..k], [table[k]] + mid, dead, false);
      SelectJoin(table[..k], mid, dead, false);
      assert ([table[k]] + mid)[1..] == mid;
    }
  }

  /** Exactly what a live client receives, message by message. */
  lemma {:induction false} InboxIsExpected(table: seq<Client>, dead: set<int>, m: Message, sender: int, p: nat)
    requires DistinctFds(table) && NobodyListed(table)
    requires sender !in dead && NOBODY !in dead
    requires p < |table| && table[p].fd !in dead
    ensures Received(Cascade(table, dead, m, sender), table[p].fd) == Expected(table, dead, m, sender, p)
    decreases |table|
  {
    if FirstDead(table, dead, sender) == |table| {
      InboxWithoutFailure(table, dead, m, sender, p);
    } else {
      var k, nested := Split(table, dead, m, sender);
      var table', p' := Without(table, k), if p < k then p else p - 1;
      Places(table, dead, k, p);
      DistinctWithout(table, k);
      InboxIsExpected(table', dead, LeaveMessage(table[k].nickname), NOBODY, p');
      ReceivedParts(table, dead, m, sender, p, k, nested, Cascade(table, dead, m, sender));
      ExpectedStep(table, dead, m, sender, p, k);
    }
  }

  lemma {:induction false} DistinctWithout(table: seq<Client>, k: nat)
    requires k < |table|
    ensures DistinctFds(table) ==> DistinctFds(Without(table, k))
    ensures NobodyListed(table) ==> NobodyListed(Without(table, k))
  {
  }

  /** The same split on the side of the closed form. */
  lemma {:induction false} ExpectedStep(table: seq<Client>, dead: set<int>, m: Message, sender: int, p: nat, k: nat)
    requires k < |table| && p < |table| && p != k
    requires table[p].fd != NOBODY && table[p].fd !in dead && table[k].fd in dead
    requires Dead(table[..k], dead) == [] && Dead(table, dead) == [table[k]] + Dead(Without(table, k), dead)
    ensures var own := if table[p].fd == sender then [] else [m];
            var inner := Expected(Without(table, k), dead, LeaveMessage(table[k].nickname), NOBODY,
                                  if p < k then p else p - 1);
            Expected(table, dead, m, sender, p) == if p < k then own + inner else inner + own
  {
    Places(table, dead, k, p);
    var notices := Notices(table, dead);
    var count := |Dead(table[..p], dead)|;
    assert notices == [LeaveMessage(table[k].nickname)] + Notices(Without(table, k), dead);
    InboxStep(m, notices, count);
    InboxStep(m, notices, 0);
  }

  lemma {:induction false} InboxWithoutFailure(table: seq<Client>, dead: set<int>, m: Message, sender: int, p: nat)
    requires DistinctFds(table) && sender !in dead && p < |table|
    requires FirstDead(table, dead, sender) == |table|
    ensures Received(Cascade(table, dead, m, sender), table[p].fd) == Expected(table, dead, m, sender, p)
  {
    FrontIsLive(table, dead, sender);
    assert table[..|table|] == table;
    ReceivedDeliveries(table, m, sender, table[p].fd);
    Places0(table, dead, p);
    InboxStep(m, Notices(table, dead), 0);
  }

  lemma {:induction false} Places0(table: seq<Client>, dead: set<int>, p: nat)
    requires p < |table| && Dead(table, dead) == []
    ensures Dead(table[..p], dead) == []
  {
    assert table == table[..p] + table[p..];
    SelectJoin(table[..p], table[p..], dead, false);
  }

  lemma {:induction false} InboxStep(m: Message, notices: seq<Message>, k: nat)
    requires k <= |notices|
    ensures k > 0 ==> Inbox([m] + notices, k) == Inbox(notices, k - 1) + [m]
    ensures k == 0 ==> Inbox([m] + notices, k) == [m] + notices && Inbox(notices, k) == notices
  {
    if k > 0 {
      assert ([m] + notices)[k..] == notices[k - 1..];
      assert ([m] + notices)[..k] == [m] + notices[..k - 1];
      assert ([m] + notices[..k - 1])[1..] == notices[..k - 1];
    } else {
      assert ([m] + notices)[0..] == [m] + notices && notices[0..] == notices;
      assert ([m] + notices)[..0] == [] && notices[..0] == [];
    }
  }

  /** The outer message comes before the nested ones for clients ahead of the dead one, and
      after them for the clients behind it. */
  lemma {:induction false} ReceivedParts(table: seq<Client>, dead: set<int>, m: Message, sender: int, p: nat, k: nat,
                      nested: seq<Event>, news: seq<Event>)
    requires DistinctFds(table) && p < |table| && k < |table| && p != k
    requires table[p].fd !in dead
    requires news == Deliveries(table[..k], m, sender) + [Failed(table[k].fd, m), Closed(table[k].fd)] + nested +
                     Deliveries(Live(table[k + 1..], dead), m, sender)
    ensures var own := if table[p].fd == sender then [] else [m];
            var got := Received(nested, table[p].fd);
            Received(news, table[p].fd) == if p < k then own + got else got + own
  {
    var fd := table[p].fd;
    var own := if fd == sender then [] else [m];
    var before, after := Deliveries(table[..k], m, sender), Deliveries(Live(table[k + 1..], dead), m, sender);
    ReceivedFour(before, Failed(table[k].fd, m), Closed(table[k].fd), nested, after, fd);
    ReceivedAhead(table, m, sender, p, k);
    ReceivedBehind(table, dead, m, sender, p, k);
    OneSide(Received(before, fd), Received(nested, fd), Received(after, fd), own, p < k);
  }

  lemma {:induction false} OneSide(a: seq<Message>, got: seq<Message>, b: seq<Message>, own: seq<Message>, ahead: bool)
    requires a == if ahead then own else []
    requires b == if ahead then [] else own
    ensures a + got + b == if ahead then own + got else got + own
  {
  }

  lemma {:induction false} ReceivedAhead(table: seq<Client>, m: Message, sender: int, p: nat, k: nat)
    requires DistinctFds(table) && p < |table| && k < |table| && p != k
    ensures Received(Deliveries(table[..k], m, sender), table[p].fd) ==
            if p < k then (if table[p].fd == sender then [] else [m]) else []
  {
    DistinctParts(table, k);
    WhichSide(table, p, k);
    ReceivedDeliveries(table[..k], m, sender, table[p].fd);
  }

  lemma {:induction false} ReceivedBehind(table: seq<Client>, dead: set<int>, m: Message, sender: int, p: nat, k: nat)
    requires DistinctFds(table) && p < |table| && k < |table| && p != k && table[p].fd !in dead
    ensures Received(Deliveries(Live(table[k + 1..], dead), m, sender), table[p].fd) ==
            if p < k then [] else (if table[p].fd == sender then [] else [m])
  {
    DistinctParts(table, k);
    WhichSide(table, p, k);
    LiveListed(table[k + 1..], dead, table[p].fd);
    ReceivedDeliveries(Live(table[k + 1..], dead), m, sender, table[p].fd);
  }

  lemma {:induction false} ReceivedFour(a: seq<Event>, e: Event, f: Event, b: seq<Event>, c: seq<Event>, fd: int)
    requires !e.Sent? && !f.Sent?
    ensures Received(a + [e, f] + b + c, fd) == Received(a, fd) + Received(b, fd) + Received(c, fd)
  {
    var ab := a + [e, f];
    ReceivedJoin(ab + b, c, fd);
    ReceivedJoin(ab, b, fd);
    ReceivedPast(a, e, f, fd);
  }

  lemma {:induction false} ReceivedPast(a: seq<Event>, e: Event, f: Event, fd: int)
    requires !e.Sent? && !f.Sent?
    ensures Received(a + [e, f], fd) == Received(a, fd)
  {
    ReceivedJoin(a, [e, f], fd);
    assert [e, f][1..] == [f] && [f][1..] == [];
    assert Received([f], fd) == [];
  }

  lemma {:induction false} DistinctParts(table: seq<Client>, k: nat)
    requires DistinctFds(table) && k < |table|
    ensures DistinctFds(table[..k]) && DistinctFds(table[k + 1..])
  {
  }

  lemma {:induction false} WhichSide(table: seq<Client>, p: nat, k: nat)
    requires DistinctFds(table) && p < |table| && k < |table| && p != k
    ensures Listed(table[..k], table[p].fd) <==> p < k
    ensures Listed(table[k + 1..], table[p].fd) <==> p > k
  {
    if p < k {
      assert table[..k][p].fd == table[p].fd;
    } else {
      assert table[k + 1..][p - k - 1].fd == table[p].fd;
    }
  }

  // ---------- the delivery theorem ----------

  /** Nothing reaches a descriptor that is dead or not in the table. */
  lemma {:induction false} OnlyLiveReceive(table: seq<Client>, dead: set<int>, m: Message, sender: int, fd: int)
    requires DistinctFds(table) && NobodyListed(table) && sender !in dead && NOBODY !in dead
    requires fd in dead || !Listed(table, fd)
    ensures Received(Cascade(table, dead, m, sender), fd) == []
    decreases |table|
  {
    if FirstDead(table, dead, sender) == |table| {
      FrontIsLive(table, dead, sender);
      assert table[..|table|] == table;
      LiveListed(table, dead, fd);
      ReceivedDeliveries(table, m, sender, fd);
    } else {
      var k, nested := Split(table, dead, m, sender);
      var front, back := table[..k], table[k + 1..];
      DistinctWithout(table, k);
      DistinctParts(table, k);
      PartsListed(table, k, fd);
      OnlyLiveReceive(Without(table, k), dead, LeaveMessage(table[k].nickname), NOBODY, fd);
      ReceivedFour(Deliveries(front, m, sender), Failed(table[k].fd, m), Closed(table[k].fd), nested,
                   Deliveries(Live(back, dead), m, sender), fd);
      FrontIsLive(table, dead, sender);
      LiveListed(front, dead, fd);
      LiveListed(back, dead, fd);
      ReceivedDeliveries(front, m, sender, fd);
      ReceivedDeliveries(Live(back, dead), m, sender, fd);
    }
  }

  lemma {:induction false} PartsListed(table: seq<Client>, k: nat, fd: int)
    requires k < |table|
    ensures Listed(table[..k], fd) || Listed(table[k + 1..], fd) || Listed(Without(table, k), fd) ==> Listed(table, fd)
  {
    if Listed(table[..k], fd) {
      var i :| 0 <= i < k && table[..k][i].fd == fd;
      assert table[i].fd == fd;
    } else if Listed(table[k + 1..], fd) {
      var i :| 0 <= i < |table| - k - 1 && table[k + 1..][i].fd == fd;
      assert table[k + 1 + i].fd == fd;
    }
  }

  /** The dead clients are closed once each, in table order. */
  lemma {:induction false} ClosesTheDead(table: seq<Client>, dead: set<int>, m: Message, sender: int)
    requires NobodyListed(table) && sender !in dead && NOBODY !in dead
    ensures ClosedFds(Cascade(table, dead, m, sender)) == Fds(Dead(table, dead))
    decreases |table|
  {
    if FirstDead(table, dead, sender) == |table| {
      FrontIsLive(table, dead, sender);
      assert table[..|table|] == table;
      DeliveriesCloseNothing(table, m, sender);
    } else {
      var k, nested := Split(table, dead, m, sender);
      ClosesTheDead(Without(table, k), dead, LeaveMessage(table[k].nickname), NOBODY);
      var before, after := Deliveries(table[..k], m, sender), Deliveries(Live(table[k + 1..], dead), m, sender);
      DeliveriesCloseNothing(table[..k], m, sender);
      DeliveriesCloseNothing(Live(table[k + 1..], dead), m, sender);
      ClosedFour(before, Failed(table[k].fd, m), table[k].fd, nested, after);
    }
  }

  lemma {:induction false} ClosedFour(a: seq<Event>, e: Event, fd: int, b: seq<Event>, c: seq<Event>)
    requires !e.Closed?
    ensures ClosedFds(a + [e, Closed(fd)] + b + c) == ClosedFds(a) + [fd] + ClosedFds(b) + ClosedFds(c)
  {
    var ab := a + [e, Closed(fd)];
    ClosedJoin(ab + b, c);
    ClosedJoin(ab, b);
    ClosedPast(a, e, fd);
  }

  lemma {:induction false} ClosedPast(a: seq<Event>, e: Event, fd: int)
    requires !e.Closed?
    ensures ClosedFds(a + [e, Closed(fd)]) == ClosedFds(a) + [fd]
  {
    ClosedJoin(a, [e, Closed(fd)]);
    assert [e, Closed(fd)][1..] == [Closed(fd)] && [Closed(fd)][1..] == [];
    assert ClosedFds([Closed(fd)]) == [fd];
  }

  lemma {:induction false} DeliveriesCloseNothing(table: seq<Client>, m: Message, sender: int)
    ensures ClosedFds(Deliveries(table, m, sender)) == []
  {
    if table != [] {
      DeliveriesCloseNothing(table[1..], m, sender);
      var rest := Deliveries(table[1..], m, sender);
      assert [] + rest == rest && (Delivery(table[0], m, sender) + rest)[|Delivery(table[0], m, sender)|..] == rest;
    }
  }

  /** A broadcast from a sender that is not dead, or from nobody: afterwards the table holds
      exactly the live clients in their old order; every dead client has been closed once; every
      live client has received one notice for each dead one, and the message itself once unless
      it is the sender; and nobody else has received anything. */
  lemma {:induction false} BroadcastDelivers(net: Network, dead: set<int>, s: State, m: Message, sender: int)
    requires DeadAre(net, dead) && DistinctFds(s.table) && NobodyListed(s.table)
    requires sender !in dead && NOBODY !in dead
    ensures var r := Broadcast(net, s, m, sender, 0);
            && r.table == Live(s.table, dead)
            && s.log <= r.log
            && ClosedFds(r.log[|s.log|..]) == Fds(Dead(s.table, dead))
    ensures forall p :: 0 <= p < |s.table| && s.table[p].fd !in dead ==>
              multiset(Received(Broadcast(net, s, m, sender, 0).log[|s.log|..], s.table[p].fd)) ==
              (if s.table[p].fd == sender then multiset{} else multiset{m}) + multiset(Notices(s.table, dead))
    ensures forall fd :: fd in dead || !Listed(s.table, fd) ==>
              Received(Broadcast(net, s, m, sender, 0).log[|s.log|..], fd) == []
  {
    BroadcastIsCascade(net, dead, s, m, sender);
    var news := Cascade(s.table, dead, m, sender);
    assert Broadcast(net, s, m, sender, 0).log[|s.log|..] == news;
    ClosesTheDead(s.table, dead, m, sender);
    RemainingIsLive(s.table, dead, sender);
    forall p | 0 <= p < |s.table| && s.table[p].fd !in dead
      ensures multiset(Received(news, s.table[p].fd)) ==
              (if s.table[p].fd == sender then multiset{} else multiset{m}) + multiset(Notices(s.table, dead))
    {
      InboxIsExpected(s.table, dead, m, sender, p);
      ExpectedMultiset(s.table, dead, m, sender, p);
    }
    forall fd | fd in dead || !Listed(s.table, fd)
      ensures Received(news, fd) == []
    {
      OnlyLiveReceive(s.table, dead, m, sender, fd);
    }
  }

  lemma {:induction false} RemainingIsLive(table: seq<Client>, dead: set<int>, sender: int)
    requires sender !in dead
    ensures Remaining(table, dead, sender) == Live(table, dead)
  {
    FrontIsLive(table, dead, sender);
    assert table[..|table|] == table;
  }

  lemma {:induction false} ExpectedMultiset(table: seq<Client>, dead: set<int>, m: Message, sender: int, p: nat)
    requires p < |table|
    ensures multiset(Expected(table, dead, m, sender, p)) ==
            (if table[p].fd == sender then multiset{} else multiset{m}) + multiset(Notices(table, dead))
  {
    var notices, k := Notices(table, dead), |Dead(table[..p], dead)|;
    DeadAhead(table, dead, p);
    if table[p].fd != sender {
      InboxMultiset([m] + notices, k);
      OneMore(m, notices);
    } else if k >= 1 {
      InboxMultiset(notices, k - 1);
    }
  }

  lemma {:induction false} OneMore(m: Message, notices: seq<Message>)
    ensures multiset([m] + notices) == multiset{m} + multiset(notices)
  {
  }

  lemma {:induction false} DeadAhead(table: seq<Client>, dead: set<int>, p: nat)
    requires p < |table|
    ensures |Dead(table[..p], dead)| <= |Dead(table, dead)|
  {
    assert table == table[..p] + table[p..];
    SelectJoin(table[..p], table[p..], dead, false);
  }

  // ---------- a sender that is itself dead ----------

  /** The client that a broadcast from a dead sender skips: the sender stood before the first
      other dead client, its removal moved the later clients one place up, and this one now
      stands just before the index at which the loop resumes. */
  ghost predicate Skipped(table: seq<Client>, dead: set<int>, sender: int, p: nat)
    requires p < |table|
  {
    var d := FirstDead(table, dead, sender);
    && FirstIndex(table, sender) < d < p
    && |Live(table[..p], dead)| == d - 1
  }

  /** With a dead sender in the table and some other client dead, every live client but the
      skipped one receives a notice for each dead client and the message, once each; the
      skipped one receives the notices and misses the message. */
  lemma {:induction false} DeadSenderSkips(table: seq<Client>, dead: set<int>, m: Message, sender: int, p: nat)
    requires DistinctFds(table) && NobodyListed(table) && NOBODY !in dead
    requires sender in dead && FirstIndex(table, sender) < |table|
    requires FirstDead(table, dead, sender) < |table|
    requires p < |table| && table[p].fd !in dead
    ensures Remaining(table, dead, sender) == Live(table, dead)
    ensures multiset(Received(Cascade(table, dead, m, sender), table[p].fd)) ==
            (if Skipped(table, dead, sender, p) then multiset{} else multiset{m}) + multiset(Notices(table, dead))
  {
    var d, fd := FirstDead(table, dead, sender), table[p].fd;
    var leave := LeaveMessage(table[d].nickname);
    var table', p' := Without(table, d), if p < d then p else p - 1;
    DistinctWithout(table, d);
    assert table'[p'] == table[p];
    InboxIsExpected(table', dead, leave, NOBODY, p');
    ExpectedMultiset(table', dead, leave, NOBODY, p');
    NoticesWithout(table, dead, d);
    OuterReceived(table, dead, m, sender, p);
  }

  /** What a live client receives of the outer broadcast: the message, unless it is skipped. */
  lemma {:induction false} OuterReceived(table: seq<Client>, dead: set<int>, m: Message, sender: int, p: nat)
    requires DistinctFds(table) && NobodyListed(table) && NOBODY !in dead
    requires sender in dead && FirstIndex(table, sender) < |table|
    requires FirstDead(table, dead, sender) < |table|
    requires p < |table| && table[p].fd !in dead
    ensures var d := FirstDead(table, dead, sender);
            var nested := Cascade(Without(table, d), dead, LeaveMessage(table[d].nickname), NOBODY);
            multiset(Received(Cascade(table, dead, m, sender), table[p].fd)) ==
            (if Skipped(table, dead, sender, p) then multiset{} else multiset{m})
            + multiset(Received(nested, table[p].fd))
  {
    var d, fd := FirstDead(table, dead, sender), table[p].fd;
    var live := Live(table, dead);
    var nested := Cascade(Without(table, d), dead, LeaveMessage(table[d].nickname), NOBODY);
    var tail := live[Min(d, |live|)..];
    ReceivedFour(Deliveries(table[..d], m, sender), Failed(table[d].fd, m), Closed(table[d].fd),
                 nested, Deliveries(tail, m, sender), fd);
    OuterSides(table, dead, m, sender, p);
    var before, after := Received(Deliveries(table[..d], m, sender), fd), Received(Deliveries(tail, m, sender), fd);
    MiddleMultiset(before, Received(nested, fd), after);
  }

  lemma {:induction false} MiddleMultiset(a: seq<Message>, b: seq<Message>, c: seq<Message>)
    ensures multiset(a + b + c) == multiset(a + c) + multiset(b)
  {
  }

  /** The loop reaches a client before the first other dead one or after it, or not at all. */
  lemma {:induction false} OuterSides(table: seq<Client>, dead: set<int>, m: Message, sender: int, p: nat)
    requires DistinctFds(table) && NobodyListed(table) && NOBODY !in dead
    requires sender in dead && FirstIndex(table, sender) < |table|
    requires FirstDead(table, dead, sender) < |table|
    requires p < |table| && table[p].fd !in dead
    ensures var d, live := FirstDead(table, dead, sender), Live(table, dead);
            Received(Deliveries(table[..d], m, sender), table[p].fd)
            + Received(Deliveries(live[Min(d, |live|)..], m, sender), table[p].fd)
            == if Skipped(table, dead, sender, p) then [] else [m]
  {
    var d, fd := FirstDead(table, dead, sender), table[p].fd;
    var live := Live(table, dead);
    var tail := live[Min(d, |live|)..];
    DistinctParts(table, d);
    LiveListed(table, dead, fd);
    ReceivedDeliveries(table[..d], m, sender, fd);
    WhichSide(table, p, d);
    LivePlace(table, dead, p);
    FrontOfDeadSender(table, dead, sender);
    TailListed(live, |Live(table[..p], dead)|, d);
    ReceivedDeliveries(tail, m, sender, fd);
    LiveGrows(table, dead, d, p);
  }

  lemma {:induction false} NoticesWithout(table: seq<Client>, dead: set<int>, d: nat)
    requires d < |table| && table[d].fd in dead
    ensures multiset(Notices(table, dead)) ==
            multiset{LeaveMessage(table[d].nickname)} + multiset(Notices(Without(table, d), dead))
  {
    var front, back := table[..d], table[d + 1..];
    assert table == front + ([table[d]] + back);
    SelectJoin(front, [table[d]] + back, dead, false);
    SelectJoin(front, back, dead, false);
    assert Select([table[d]] + back, dead, false) == [table[d]] + Select(back, dead, false);
    NoticesJoin(Dead(front, dead), table[d], Dead(back, dead));
  }

  lemma {:induction false} NoticesJoin(a: seq<Client>, c: Client, b: seq<Client>)
    ensures multiset(NoticesOf(a + ([c] + b))) == multiset{LeaveMessage(c.nickname)} + multiset(NoticesOf(a + b))
  {
    assert NoticesOf(a + ([c] + b)) == NoticesOf(a) + [LeaveMessage(c.nickname)] + NoticesOf(b);
    assert NoticesOf(a + b) == NoticesOf(a) + NoticesOf(b);
  }

  /** A live client's place among the live ones. */
  lemma {:induction false} LivePlace(table: seq<Client>, dead: set<int>, p: nat)
    requires p < |table| && table[p].fd !in dead
    ensures var k := |Live(table[..p], dead)|;
            k < |Live(table, dead)| && Live(table, dead)[k] == table[p]
  {
    assert table == table[..p] + ([table[p]] + table[p + 1..]);
    SelectJoin(table[..p], [table[p]] + table[p + 1..], dead, true);
  }

  lemma {:induction false} TailListed(live: seq<Client>, k: nat, d: nat)
    requires DistinctFds(live) && k < |live|
    ensures Listed(live[Min(d, |live|)..], live[k].fd) <==> d <= k
    ensures DistinctFds(live[Min(d, |live|)..])
  {
    if d <= k {
      assert live[d..][k - d].fd == live[k].fd;
    }
  }

  /** Before the first other dead client only the sender can be missing from the live ones. */
  lemma {:induction false} FrontOfDeadSender(table: seq<Client>, dead: set<int>, sender: int)
    requires DistinctFds(table) && sender in dead && FirstIndex(table, sender) < |table|
    ensures var d := FirstDead(table, dead, sender);
            |Live(table[..d], dead)| == if FirstIndex(table, sender) < d then d - 1 else d
  {
    var d, q := FirstDead(table, dead, sender), FirstIndex(table, sender);
    var front := table[..d];
    if q < d {
      OneDead(front, q, dead);
    } else {
      LiveIsLive(front, dead);
    }
  }

  lemma {:induction false} OneDead(front: seq<Client>, q: nat, dead: set<int>)
    requires q < |front| && front[q].fd in dead
    requires forall i :: 0 <= i < |front| && i != q ==> front[i].fd !in dead
    ensures |Live(front, dead)| == |front| - 1
  {
    var left, right := front[..q], front[q + 1..];
    assert front == left + [front[q]] + right;
    SelectJoin(left + [front[q]], right, dead, true);
    SelectJoin(left, [front[q]], dead, true);
    LiveIsLive(left, dead);
    LiveIsLive(right, dead);
    AllDead([front[q]], dead);
  }

  lemma {:induction false} AllDead(table: seq<Client>, dead: set<int>)
    requires forall i :: 0 <= i < |table| ==> table[i].fd in dead
    ensures Live(table, dead) == []
  {
    if table != [] {
      AllDead(table[1..], dead);
    }
  }

  lemma {:induction false} LiveGrows(table: seq<Client>, dead: set<int>, d: nat, p: nat)
    requires p <= |table| && d <= |table|
    ensures d <= p ==> |Live(table[..d], dead)| <= |Live(table[..p], dead)|
    ensures p <= d ==> |Live(table[..p], dead)| <= |Live(table[..d], dead)|
    ensures |Live(table[..p], dead)| <= p
  {
    if d <= p {
      assert table[..p] == table[..d] + table[d..p];
      SelectJoin(table[..d], table[d..p], dead, true);
    } else {
      assert table[..d] == table[..p] + table[p..d];
      SelectJoin(table[..p], table[p..d], dead, true);
    }
    SelectShort(table[..p], dead);
  }

  lemma {:induction false} SelectShort(table: seq<Client>, dead: set<int>)
    ensures |Live(table, dead)| <= |table|
  {
    if table != [] {
      SelectShort(table[1..], dead);
    }
  }

  /** A sender that is not in the table makes no difference. */
  lemma {:induction false} UnlistedSender(table: seq<Client>, dead: set<int>, m: Message, sender: int)
    requires !Listed(table, sender) && NobodyListed(table)
    ensures Deliveries(table, m, sender) == Deliveries(table, m, NOBODY)
    ensures FirstDead(table, dead, sender) == FirstDead(table, dead, NOBODY)
  {
    if table != [] {
      assert table[0].fd != sender;
      assert table == [table[0]] + table[1..];
      ListedSplit(table[0], table[1..], sender);
      UnlistedSender(table[1..], dead, m, sender);
    }
  }

  lemma {:induction false} UnlistedCascade(table: seq<Client>, dead: set<int>, m: Message, sender: int)
    requires !Listed(table, sender) && NobodyListed(table) && NOBODY !in dead
    ensures Cascade(table, dead, m, sender) == Cascade(table, dead, m, NOBODY)
  {
    UnlistedSender(table, dead, m, sender);
    var k := FirstDead(table, dead, sender);
    if k < |table| {
      var live := Live(table, dead);
      var tail := live[Min(k, |live|)..];
      PartsListed(table, k, sender);
      LiveIsLive(table, dead);
      assert !Listed(tail, sender);
      UnlistedSender(table[..k], dead, m, sender);
      UnlistedSender(tail, dead, m, sender);
    }
  }

  /** The notices a broadcast sets off: none if no send fails. */
  ghost function Notified(table: seq<Client>, dead: set<int>, sender: int): seq<Message> {
    if FirstDead(table, dead, sender) == |table| then [] else Notices(table, dead)
  }

  /** A live client receives the message and every notice, once each. */
  ghost predicate Served(table: seq<Client>, dead: set<int>, m: Message, sender: int, p: nat)
    requires p < |table|
  {
    multiset(Received(Cascade(table, dead, m, sender), table[p].fd)) ==
    multiset{m} + multiset(Notified(table, dead, sender))
  }

  /** Every live client other than the sender receives everything. */
  ghost predicate Complete(table: seq<Client>, dead: set<int>, m: Message, sender: int) {
    forall p :: 0 <= p < |table| && table[p].fd !in dead && table[p].fd != sender ==>
      Served(table, dead, m, sender, p)
  }

  /** Delivery is complete for every table, every set of dead clients and every sender, except
      when the sender is dead and listed before the first other dead client and a live client
      stands behind that one. */
  lemma {:induction false} DeliveryIsComplete(table: seq<Client>, dead: set<int>, m: Message, sender: int)
    requires DistinctFds(table) && NobodyListed(table) && NOBODY !in dead
    ensures var d := FirstDead(table, dead, sender);
            Complete(table, dead, m, sender) <==>
            !(sender in dead && FirstIndex(table, sender) < d && exists p :: d < p < |table| && table[p].fd !in dead)
  {
    var d, q := FirstDead(table, dead, sender), FirstIndex(table, sender);
    if sender !in dead {
      forall p | 0 <= p < |table| && table[p].fd !in dead && table[p].fd != sender
        ensures Served(table, dead, m, sender, p)
      {
        LiveSenderServes(table, dead, m, sender, p);
      }
    } else if q == |table| {
      assert !Listed(table, sender);
      UnlistedCascade(table, dead, m, sender);
      UnlistedSender(table, dead, m, sender);
      forall p | 0 <= p < |table| && table[p].fd !in dead && table[p].fd != sender
        ensures Served(table, dead, m, sender, p)
      {
        LiveSenderServes(table, dead, m, NOBODY, p);
      }
    } else if d == |table| {
      forall p | 0 <= p < |table| && table[p].fd !in dead
        ensures Served(table, dead, m, sender, p)
      {
        ReceivedDeliveries(table, m, sender, table[p].fd);
        assert Listed(table, table[p].fd);
      }
    } else {
      CompleteUnlessSkipped(table, dead, m, sender);
    }
  }

  lemma {:induction false} CompleteUnlessSkipped(table: seq<Client>, dead: set<int>, m: Message, sender: int)
    requires DistinctFds(table) && NobodyListed(table) && NOBODY !in dead
    requires sender in dead && FirstIndex(table, sender) < |table| && FirstDead(table, dead, sender) < |table|
    ensures var d := FirstDead(table, dead, sender);
            Complete(table, dead, m, sender) <==>
            !(FirstIndex(table, sender) < d && exists p :: d < p < |table| && table[p].fd !in dead)
  {
    var d, q := FirstDead(table, dead, sender), FirstIndex(table, sender);
    forall p | 0 <= p < |table| && table[p].fd !in dead
      ensures Served(table, dead, m, sender, p) <==> !Skipped(table, dead, sender, p)
    {
      DeadSenderSkips(table, dead, m, sender, p);
      assert multiset{m} + multiset(Notices(table, dead)) != multiset{} + multiset(Notices(table, dead)) by {
        assert (multiset{m} + multiset(Notices(table, dead)))[m] == multiset(Notices(table, dead))[m] + 1;
      }
    }
    if q < d && exists p :: d < p < |table| && table[p].fd !in dead {
      var p := FirstSkipped(table, dead, sender);
      assert Skipped(table, dead, sender, p);
    }
  }

  lemma {:induction false} LiveSenderServes(table: seq<Client>, dead: set<int>, m: Message, sender: int, p: nat)
    requires DistinctFds(table) && NobodyListed(table) && NOBODY !in dead && sender !in dead
    requires p < |table| && table[p].fd !in dead && table[p].fd != sender
    ensures Served(table, dead, m, sender, p)
  {
    InboxIsExpected(table, dead, m, sender, p);
    ExpectedMultiset(table, dead, m, sender, p);
    FrontIsLive(table, dead, sender);
    assert table[..|table|] == table;
  }

  /** What any broadcast at all brings to a live client. */
  lemma {:induction false} AnySender(table: seq<Client>, dead: set<int>, m: Message, sender: int, p: nat)
    requires DistinctFds(table) && NobodyListed(table) && NOBODY !in dead && p < |table| && table[p].fd !in dead
    ensures multiset(Received(Cascade(table, dead, m, sender), table[p].fd)) ==
            (if table[p].fd == sender || (sender in dead && Skipped(table, dead, sender, p)) then multiset{}
             else multiset{m}) + multiset(Notified(table, dead, sender))
  {
    var d := FirstDead(table, dead, sender);
    if sender !in dead {
      InboxIsExpected(table, dead, m, sender, p);
      ExpectedMultiset(table, dead, m, sender, p);
      FrontIsLive(table, dead, sender);
      assert table[..|table|] == table;
    } else if FirstIndex(table, sender) == |table| {
      assert !Listed(table, sender);
      UnlistedCascade(table, dead, m, sender);
      UnlistedSender(table, dead, m, sender);
      LiveSenderServes(table, dead, m, NOBODY, p);
    } else if d == |table| {
      ReceivedDeliveries(table, m, sender, table[p].fd);
      assert Listed(table, table[p].fd);
    } else {
      DeadSenderSkips(table, dead, m, sender, p);
    }
  }

  /** The shortest table that skips: a dead sender, another dead client, and a live one, which
      hears that both have left but does not get the message. */
  lemma {:induction false} SkipExample(net: Network, dead: set<int>, m: Message, table: seq<Client>, attempts: nat)
    requires DeadAre(net, dead) && NOBODY !in dead
    requires |table| == 3 && table[0].fd in dead && table[1].fd in dead && table[2].fd !in dead
    requires table[0].fd != table[1].fd && table[2].fd != NOBODY
    ensures var r := Broadcast(net, State(table, [], attempts), m, table[0].fd, 0);
            && r.table == [table[2]]
            && multiset(Received(r.log, table[2].fd)) ==
               multiset{LeaveMessage(table[0].nickname), LeaveMessage(table[1].nickname)}
  {
    var sender := table[0].fd;
    ExampleTable(table, dead);
    DeadSenderSkips(table, dead, m, sender, 2);
    BroadcastIsCascade(net, dead, State(table, [], attempts), m, sender);
    assert [] + Cascade(table, dead, m, sender) == Cascade(table, dead, m, sender);
    assert NoticesOf(table[..2]) == [LeaveMessage(table[0].nickname), LeaveMessage(table[1].nickname)];
  }

  lemma {:induction false} ExampleTable(table: seq<Client>, dead: set<int>)
    requires |table| == 3 && table[0].fd in dead && table[1].fd in dead && table[2].fd !in dead
    requires table[0].fd != table[1].fd
    ensures FirstIndex(table, table[0].fd) == 0 && FirstDead(table, dead, table[0].fd) == 1
    ensures Dead(table, dead) == table[..2] && Live(table, dead) == [table[2]] && Live(table[..2], dead) == []
  {
    var front, back := table[..2], table[2..];
    assert table == front + back && back == [table[2]] && back[1..] == [];
    assert front == [table[0]] + [table[1]] && front[1..] == [table[1]] && front[1..][1..] == [];
    SelectJoin(front, back, dead, true);
    SelectJoin(front, back, dead, false);
    assert Select(front, dead, false) == front;
    assert Select(back, dead, true) == back && Select(back, dead, false) == [];
    AllDead(front, dead);
  }

  /** The first live client behind the first other dead one is the one that is skipped. */
  lemma {:induction false} FirstSkipped(table: seq<Client>, dead: set<int>, sender: int) returns (p: nat)
    requires DistinctFds(table) && sender in dead
    requires FirstIndex(table, sender) < FirstDead(table, dead, sender) < |table|
    requires exists i :: FirstDead(table, dead, sender) < i < |table| && table[i].fd !in dead
    ensures p < |table| && table[p].fd !in dead && Skipped(table, dead, sender, p)
  {
    var d := FirstDead(table, dead, sender);
    p := d;
    while table[p].fd in dead
      invariant d <= p < |table| && forall i :: d <= i < p ==> table[i].fd in dead
      decreases |table| - p
    {
      p := p + 1;
    }
    FrontOfDeadSender(table, dead, sender);
    assert table[..p] == table[..d] + table[d..p];
    SelectJoin(table[..d], table[d..p], dead, true);
    AllDead(table[d..p], dead);
  }
}
