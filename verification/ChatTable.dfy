/** The client table of module3/07/server.c. `broadcast_message` removes a client as soon as a
    send to it fails, `remove_client` broadcasts that the client has left, and both work on the
    one array: broadcasts nest inside one another while outer loops are still indexing it.

    The first half states the two routines over values and derives what a broadcast delivers;
    the class in the second half is the array code, proved equal to them. */
module ChatTable {
  import opened ChatMessages
  import opened Sequences

  const NOBODY := -1

  datatype Client = Client(fd: int, nickname: string)

  /** What leaves the process: a message handed to a socket, a failed attempt, a close. */
  datatype Event = Sent(fd: int, message: Message) | Failed(fd: int, message: Message) | Closed(fd: int)

  /** `attempts` counts the calls of `send_all` so far. */
  datatype State = State(table: seq<Client>, log: seq<Event>, attempts: nat)

  /** Whether the n-th call of `send_all` fails when it is made for a given descriptor. */
  type Network = (nat, int) -> bool

  // ---------- the two routines as functions ----------

  function FirstIndex(table: seq<Client>, fd: int): (k: nat)
    ensures k <= |table|
    ensures k < |table| ==> table[k].fd == fd
    ensures forall i :: 0 <= i < k ==> table[i].fd != fd
  {
    if table == [] || table[0].fd == fd then 0 else 1 + FirstIndex(table[1..], fd)
  }

  function Without(table: seq<Client>, k: nat): seq<Client>
    requires k < |table|
  {
    table[..k] + table[k + 1..]
  }

  /** `remove_client`, lines 294-318. */
  function Remove(net: Network, s: State, fd: int): (r: State)
    ensures |r.table| <= |s.table|
    ensures FirstIndex(s.table, fd) < |s.table| ==> |r.table| < |s.table|
    decreases |s.table|, 0, 0
  {
    var k := FirstIndex(s.table, fd);
    if k == |s.table| then s
    else
      Broadcast(net, State(Without(s.table, k), s.log + [Closed(fd)], s.attempts),
                LeaveMessage(s.table[k].nickname), NOBODY, 0)
  }

  /** The loop of `broadcast_message`, lines 321-328, from index `i` on. */
  function Broadcast(net: Network, s: State, m: Message, sender: int, i: nat): (r: State)
    ensures |r.table| <= |s.table|
    decreases |s.table|, 1, |s.table| - i
  {
    if i >= |s.table| then s
    else
      var fd := s.table[i].fd;
      if fd == sender then Broadcast(net, s, m, sender, i + 1)
      else if net(s.attempts, fd) then
        var removed := Remove(net, State(s.table, s.log + [Failed(fd, m)], s.attempts + 1), fd);
        Broadcast(net, removed, m, sender, i)
      else Broadcast(net, State(s.table, s.log + [Sent(fd, m)], s.attempts + 1), m, sender, i + 1)
  }

  /** `add_client`, lines 273-292: a full table turns the newcomer away. */
  function Joined(net: Network, s: State, fd: int, nickname: string): State {
    if |s.table| >= MAX_CLIENTS then State(s.table, s.log + [Closed(fd)], s.attempts)
    else
      var c := Client(fd, SafeCopy(nickname, MAX_NICKNAME));
      Broadcast(net, State(s.table + [c], s.log, s.attempts), JoinMessage(nickname), fd, 0)
  }

  // ---------- any network at all ----------

  ghost function Fds(table: seq<Client>): seq<int> {
    seq(|table|, i requires 0 <= i < |table| => table[i].fd)
  }

  ghost function ClosedFds(log: seq<Event>): seq<int> {
    if log == [] then []
    else if log[0].Closed? then [log[0].fd] + ClosedFds(log[1..])
    else ClosedFds(log[1..])
  }

  lemma {:induction false} ClosedJoin(a: seq<Event>, b: seq<Event>)
    ensures ClosedFds(a + b) == ClosedFds(a) + ClosedFds(b)
  {
    if a == [] {
      assert a + b == b;
    } else {
      ClosedJoin(a[1..], b);
      assert (a + b)[1..] == a[1..] + b;
    }
  }

  /** What a routine keeps: the log only grows, the table only loses entries and keeps their
      order, and every entry lost has had its descriptor closed, once. */
  ghost predicate Shrinks(s: State, r: State) {
    && Subsequence(r.table, s.table)
    && s.log <= r.log
    && multiset(Fds(s.table)) == multiset(Fds(r.table)) + multiset(ClosedFds(r.log[|s.log|..]))
  }

  lemma {:induction false} ShrinksSelf(s: State)
    ensures Shrinks(s, s)
  {
    SubsequenceSelf(s.table);
    assert s.log[|s.log|..] == [];
  }

  lemma {:induction false} ShrinksTransitive(s: State, t: State, r: State)
    requires Shrinks(s, t) && Shrinks(t, r)
    ensures Shrinks(s, r)
  {
    SubsequenceTransitive(r.table, t.table, s.table);
    var a, b := t.log[|s.log|..], r.log[|t.log|..];
    assert r.log[|s.log|..] == a + b;
    ClosedJoin(a, b);
  }

  lemma {:induction false} ShrinksByLog(s: State, e: Event, r: State)
    requires !e.Closed? && Shrinks(State(s.table, s.log + [e], s.attempts + 1), r)
    ensures Shrinks(s, r)
  {
    var t := State(s.table, s.log + [e], s.attempts + 1);
    SubsequenceSelf(s.table);
    assert t.log[|s.log|..] == [e];
    assert ClosedFds([e]) == [];
    ShrinksTransitive(s, t, r);
  }

  lemma {:induction false} ShrinksByRemoval(s: State, e: Event, removed: State, r: State)
    requires !e.Closed? && Shrinks(State(s.table, s.log + [e], s.attempts + 1), removed) && Shrinks(removed, r)
    ensures Shrinks(s, r)
  {
    ShrinksTransitive(State(s.table, s.log + [e], s.attempts + 1), removed, r);
    ShrinksByLog(s, e, r);
  }

  lemma {:induction false} WithoutShrinks(table: seq<Client>, k: nat)
    requires k < |table|
    ensures Subsequence(Without(table, k), table)
    ensures multiset(Fds(table)) == multiset(Fds(Without(table, k))) + multiset([table[k].fd])
  {
    var front, c, back := table[..k], table[k], table[k + 1..];
    var split := front + [c] + back;
    assert table == split;
    FdsWithout(front, c, back);
    assert Subsequence(front + back, split) by {
      SubsequenceDrop(front, c, back);
    }
  }

  lemma {:induction false} FdsWithout(front: seq<Client>, c: Client, back: seq<Client>)
    ensures multiset(Fds(front + [c] + back)) == multiset(Fds(front + back)) + multiset([c.fd])
  {
    assert Fds(front + [c] + back) == Fds(front) + [c.fd] + Fds(back);
    assert Fds(front + back) == Fds(front) + Fds(back);
  }

  /** However the sends turn out, a removal ends, and only removes. */
  lemma {:induction false} RemoveShrinks(net: Network, s: State, fd: int)
    ensures Shrinks(s, Remove(net, s, fd))
    decreases |s.table|, 0, 0
  {
    var k := FirstIndex(s.table, fd);
    if k == |s.table| {
      ShrinksSelf(s);
    } else {
      var t := State(Without(s.table, k), s.log + [Closed(fd)], s.attempts);
      BroadcastShrinks(net, t, LeaveMessage(s.table[k].nickname), NOBODY, 0);
      assert Shrinks(s, t) by {
        WithoutShrinks(s.table, k);
        assert t.log[|s.log|..] == [Closed(fd)];
        assert ClosedFds([Closed(fd)]) == [fd];
      }
      ShrinksTransitive(s, t, Remove(net, s, fd));
    }
  }

  lemma {:induction false} BroadcastShrinks(net: Network, s: State, m: Message, sender: int, i: nat)
    ensures Shrinks(s, Broadcast(net, s, m, sender, i))
    decreases |s.table|, 1, |s.table| - i
  {
    if i >= |s.table| {
      ShrinksSelf(s);
    } else {
      var fd := s.table[i].fd;
      if fd == sender {
        BroadcastShrinks(net, s, m, sender, i + 1);
      } else if net(s.attempts, fd) {
        var failed := State(s.table, s.log + [Failed(fd, m)], s.attempts + 1);
        var removed := Remove(net, failed, fd);
        var r := Broadcast(net, removed, m, sender, i);
        assert Broadcast(net, s, m, sender, i) == r;
        assert Shrinks(s, r) by {
          RemoveShrinks(net, failed, fd);
          BroadcastShrinks(net, removed, m, sender, i);
          ShrinksByRemoval(s, Failed(fd, m), removed, r);
        }
      } else {
        var sent := State(s.table, s.log + [Sent(fd, m)], s.attempts + 1);
        var r := Broadcast(net, sent, m, sender, i + 1);
        assert Broadcast(net, s, m, sender, i) == r;
        assert Shrinks(s, r) by {
          BroadcastShrinks(net, sent, m, sender, i + 1);
          ShrinksByLog(s, Sent(fd, m), r);
        }
      }
    }
  }

  // ---------- a fixed set of dead descriptors ----------

  /** Sending to a dead descriptor always fails, sending to any other never does. */
  ghost predicate DeadAre(net: Network, dead: set<int>) {
    forall n: nat, fd: int :: net(n, fd) <==> fd in dead
  }

  /** The clients of `table` that are live (`alive`) or dead (`!alive`), in table order. */
  ghost function Select(table: seq<Client>, dead: set<int>, alive: bool): seq<Client> {
    if table == [] then []
    else if (table[0].fd !in dead) == alive then [table[0]] + Select(table[1..], dead, alive)
    else Select(table[1..], dead, alive)
  }

  ghost function Live(table: seq<Client>, dead: set<int>): seq<Client> {
    Select(table, dead, true)
  }

  ghost function Dead(table: seq<Client>, dead: set<int>): seq<Client> {
    Select(table, dead, false)
  }

  ghost function Delivery(c: Client, m: Message, sender: int): seq<Event> {
    if c.fd == sender then [] else [Sent(c.fd, m)]
  }

  ghost function Deliveries(table: seq<Client>, m: Message, sender: int): seq<Event> {
    if table == [] then [] else Delivery(table[0], m, sender) + Deliveries(table[1..], m, sender)
  }

  /** Where a broadcast first fails. */
  ghost function FirstDead(table: seq<Client>, dead: set<int>, sender: int): (k: nat)
    ensures k <= |table|
    ensures k < |table| ==> table[k].fd in dead && table[k].fd != sender
    ensures forall i :: 0 <= i < k ==> table[i].fd !in dead || table[i].fd == sender
  {
    if table == [] || (table[0].fd in dead && table[0].fd != sender) then 0
    else 1 + FirstDead(table[1..], dead, sender)
  }

  ghost function Min(a: nat, b: nat): nat {
    if a < b then a else b
  }

  /** The events of a broadcast without any index arithmetic on a changing table: up to the
      first dead client, that client's removal with its own broadcast inside, and then the
      clients from the same index on in a table that has only live clients left. */
  ghost function Cascade(table: seq<Client>, dead: set<int>, m: Message, sender: int): seq<Event>
    decreases |table|
  {
    var k := FirstDead(table, dead, sender);
    if k == |table| then Deliveries(table, m, sender)
    else
      var live := Live(table, dead);
      Deliveries(table[..k], m, sender) +
      [Failed(table[k].fd, m), Closed(table[k].fd)] +
      Cascade(Without(table, k), dead, LeaveMessage(table[k].nickname), NOBODY) +
      Deliveries(live[Min(k, |live|)..], m, sender)
  }

  ghost function Remaining(table: seq<Client>, dead: set<int>, sender: int): seq<Client> {
    if FirstDead(table, dead, sender) == |table| then table else Live(table, dead)
  }

  ghost predicate NobodyListed(table: seq<Client>) {
    forall i :: 0 <= i < |table| ==> table[i].fd != NOBODY
  }

  lemma {:induction false} SelectJoin(a: seq<Client>, b: seq<Client>, dead: set<int>, alive: bool)
    ensures Select(a + b, dead, alive) == Select(a, dead, alive) + Select(b, dead, alive)
  {
    if a == [] {
      assert a + b == b;
    } else {
      SelectJoin(a[1..], b, dead, alive);
      assert (a + b)[0] == a[0] && (a + b)[1..] == a[1..] + b;
      Associative([a[0]], Select(a[1..], dead, alive), Select(b, dead, alive));
    }
  }

  lemma {:induction false} DeliveriesJoin(a: seq<Client>, b: seq<Client>, m: Message, sender: int)
    ensures Deliveries(a + b, m, sender) == Deliveries(a, m, sender) + Deliveries(b, m, sender)
  {
    if a == [] {
      assert a + b == b;
    } else {
      DeliveriesJoin(a[1..], b, m, sender);
      assert (a + b)[0] == a[0] && (a + b)[1..] == a[1..] + b;
      Associative(Delivery(a[0], m, sender), Deliveries(a[1..], m, sender), Deliveries(b, m, sender));
    }
  }

  lemma {:induction false} LiveIsLive(table: seq<Client>, dead: set<int>)
    ensures forall c :: c in Live(table, dead) ==> c.fd !in dead && c in table
    ensures (forall c :: c in table ==> c.fd !in dead) ==> Live(table, dead) == table && Dead(table, dead) == []
  {
    if table != [] {
      LiveIsLive(table[1..], dead);
      assert table == [table[0]] + table[1..];
    }
  }

  lemma {:induction false} LiveWithout(table: seq<Client>, dead: set<int>, k: nat)
    requires k < |table| && table[k].fd in dead
    ensures Live(Without(table, k), dead) == Live(table, dead)
    ensures Dead(table, dead) == Dead(table[..k], dead) + [table[k]] + Dead(table[k + 1..], dead)
    ensures Dead(Without(table, k), dead) == Dead(table[..k], dead) + Dead(table[k + 1..], dead)
  {
    var front, back := table[..k], table[k + 1..];
    assert table == front + ([table[k]] + back);
    SelectJoin(front, [table[k]] + back, dead, true);
    SelectJoin(front, [table[k]] + back, dead, false);
    SelectJoin(front, back, dead, true);
    SelectJoin(front, back, dead, false);
    assert ([table[k]] + back)[1..] == back;
  }

  /** The state after a stretch of successful sends. */
  ghost function After(s: State, sent: seq<Event>): State {
    State(s.table, s.log + sent, s.attempts + |sent|)
  }

  lemma {:induction false} AfterJoin(s: State, a: seq<Event>, b: seq<Event>)
    ensures After(After(s, a), b) == After(s, a + b)
    ensures After(s, []) == s
  {
    assert s.log + a + b == s.log + (a + b);
    assert s.log + [] == s.log;
  }

  lemma {:induction false} SendStep(net: Network, dead: set<int>, s: State, m: Message, sender: int, i: nat)
    requires DeadAre(net, dead) && i < |s.table|
    requires s.table[i].fd !in dead || s.table[i].fd == sender
    ensures Broadcast(net, s, m, sender, i) ==
            Broadcast(net, After(s, Deliveries([s.table[i]], m, sender)), m, sender, i + 1)
  {
    var c := s.table[i];
    assert Deliveries([c][1..], m, sender) == [];
    if c.fd == sender {
      AfterJoin(s, [], []);
    } else {
      assert Deliveries([c], m, sender) == [Sent(c.fd, m)];
    }
  }

  /** Up to the first dead client the loop just sends. */
  lemma {:induction false} WalkTo(net: Network, dead: set<int>, s: State, m: Message, sender: int, i: nat, k: nat)
    requires DeadAre(net, dead) && i <= k <= |s.table|
    requires forall j :: i <= j < k ==> s.table[j].fd !in dead || s.table[j].fd == sender
    ensures Broadcast(net, s, m, sender, i) ==
            Broadcast(net, After(s, Deliveries(s.table[i..k], m, sender)), m, sender, k)
    decreases k - i
  {
    if i == k {
      AfterJoin(s, [], []);
    } else {
      var out, rest := Deliveries([s.table[i]], m, sender), Deliveries(s.table[i + 1..k], m, sender);
      SendStep(net, dead, s, m, sender, i);
      WalkTo(net, dead, After(s, out), m, sender, i + 1, k);
      AfterJoin(s, out, rest);
      assert s.table[i..k] == [s.table[i]] + s.table[i + 1..k];
      DeliveriesJoin([s.table[i]], s.table[i + 1..k], m, sender);
    }
  }

  /** The first failure: the removal runs from index `k`, and the loop resumes there. */
  lemma {:induction false} FirstFailure(net: Network, dead: set<int>, s: State, m: Message, sender: int)
    returns (removed: State)
    requires DeadAre(net, dead) && FirstDead(s.table, dead, sender) < |s.table|
    ensures var k := FirstDead(s.table, dead, sender);
            var fd := s.table[k].fd;
            && removed.table == Without(s.table, k)
            && removed.log == s.log + Deliveries(s.table[..k], m, sender) + [Failed(fd, m), Closed(fd)]
            && Broadcast(net, s, m, sender, 0) ==
               Broadcast(net, Broadcast(net, removed, LeaveMessage(s.table[k].nickname), NOBODY, 0), m, sender, k)
  {
    var k := FirstDead(s.table, dead, sender);
    var fd := s.table[k].fd;
    WalkTo(net, dead, s, m, sender, 0, k);
    assert s.table[0..k] == s.table[..k];
    var out := Deliveries(s.table[..k], m, sender);
    var failed := State(s.table, s.log + out + [Failed(fd, m)], s.attempts + |out| + 1);
    removed := State(Without(s.table, k), failed.log + [Closed(fd)], failed.attempts);
    assert FirstIndex(s.table, fd) == k;
    assert removed.log == s.log + out + [Failed(fd, m), Closed(fd)];
  }

  /** However deep the cascade goes, a broadcast produces exactly the events of `Cascade`. */
  lemma {:induction false} BroadcastIsCascade(net: Network, dead: set<int>, s: State, m: Message, sender: int)
    requires DeadAre(net, dead) && NobodyListed(s.table)
    ensures var r := Broadcast(net, s, m, sender, 0);
            && r.table == Remaining(s.table, dead, sender)
            && r.log == s.log + Cascade(s.table, dead, m, sender)
    decreases |s.table|
  {
    var table := s.table;
    var k := FirstDead(table, dead, sender);
    if k == |table| {
      WalkTo(net, dead, s, m, sender, 0, k);
      assert table[0..k] == table;
    } else {
      var removed := FirstFailure(net, dead, s, m, sender);
      var leave := LeaveMessage(table[k].nickname);
      BroadcastIsCascade(net, dead, removed, leave, NOBODY);
      RemainingWithout(table, dead, k);
      var u := Broadcast(net, removed, leave, NOBODY, 0);
      LiveIsLive(table, dead);
      Resume(net, dead, u, m, sender, k);
      JoinFour(s.log, Deliveries(table[..k], m, sender), [Failed(table[k].fd, m), Closed(table[k].fd)],
               Cascade(Without(table, k), dead, leave, NOBODY),
               Deliveries(u.table[Min(k, |u.table|)..], m, sender));
    }
  }

  lemma {:induction false} JoinFour(log: seq<Event>, a: seq<Event>, b: seq<Event>, c: seq<Event>, d: seq<Event>)
    ensures log + a + b + c + d == log + (a + b + c + d)
  {
  }

  lemma {:induction false} RemainingWithout(table: seq<Client>, dead: set<int>, k: nat)
    requires NobodyListed(table) && k < |table| && table[k].fd in dead
    ensures Remaining(Without(table, k), dead, NOBODY) == Live(table, dead)
  {
    LiveWithout(table, dead, k);
    LiveIsLive(Without(table, k), dead);
  }

  /** After a removal only live clients are left, and the outer loop runs to the end. */
  lemma {:induction false} Resume(net: Network, dead: set<int>, u: State, m: Message, sender: int, k: nat)
    requires DeadAre(net, dead)
    requires forall c :: c in u.table ==> c.fd !in dead
    ensures var r := Broadcast(net, u, m, sender, k);
            && r.table == u.table
            && r.log == u.log + Deliveries(u.table[Min(k, |u.table|)..], m, sender)
  {
    var n := |u.table|;
    if k >= n {
      assert u.log + [] == u.log;
    } else {
      WalkTo(net, dead, u, m, sender, k, n);
      assert u.table[k..n] == u.table[k..];
    }
  }

  // ---------- the array code ----------

  lemma {:induction false} ShiftedIs(before: seq<Client>, after: seq<Client>, i: nat)
    requires i < |before| == |after| + 1
    requires forall k :: 0 <= k < i ==> after[k] == before[k]
    requires forall k :: i <= k < |after| ==> after[k] == before[k + 1]
    ensures after == Without(before, i)
  {
  }

  lemma {:induction false} RemoveFound(net: Network, s: State, fd: int, k: nat)
    requires k < |s.table| && s.table[k].fd == fd && k <= FirstIndex(s.table, fd)
    ensures Remove(net, s, fd) ==
            Broadcast(net, State(Without(s.table, k), s.log + [Closed(fd)], s.attempts),
                      LeaveMessage(s.table[k].nickname), NOBODY, 0)
    ensures FirstIndex(s.table, fd) == k
  {
  }

  lemma {:induction false} BroadcastStep(net: Network, s: State, m: Message, sender: int, i: nat)
    requires i < |s.table|
    ensures var fd := s.table[i].fd;
            Broadcast(net, s, m, sender, i) ==
            if fd == sender then Broadcast(net, s, m, sender, i + 1)
            else if net(s.attempts, fd) then
              Broadcast(net, Remove(net, State(s.table, s.log + [Failed(fd, m)], s.attempts + 1), fd), m, sender, i)
            else Broadcast(net, State(s.table, s.log + [Sent(fd, m)], s.attempts + 1), m, sender, i + 1)
    ensures var fd := s.table[i].fd;
            |Remove(net, State(s.table, s.log + [Failed(fd, m)], s.attempts + 1), fd).table| < |s.table|
  {
  }

  class ClientTable {
    const clients: array<Client>
    var clientCount: nat
    const net: Network
    ghost var log: seq<Event>
    var attempts: nat

    ghost predicate Valid()
      reads this
    {
      clients.Length == MAX_CLIENTS && clientCount <= MAX_CLIENTS
    }

    ghost function Value(): State
      requires Valid()
      reads this, clients
    {
      State(clients[..clientCount], log, attempts)
    }

    constructor (net: Network)
      ensures Valid() && fresh(clients) && this.net == net && Value() == State([], [], 0)
    {
      this.net := net;
      clients := new Client[MAX_CLIENTS];
      clientCount := 0;
      log, attempts := [], 0;
    }

    /** `send_all`, whose outcome the network decides. */
    method SendAll(fd: int, message: Message) returns (failed: bool)
      modifies this`log, this`attempts
      ensures failed == net(old(attempts), fd)
      ensures log == old(log) + [if failed then Failed(fd, message) else Sent(fd, message)]
      ensures attempts == old(attempts) + 1
    {
      failed := net(attempts, fd);
      log := log + [if failed then Failed(fd, message) else Sent(fd, message)];
      attempts := attempts + 1;
    }

    /** The shifting loop of lines 308-311. */
    method ShiftOut(i: nat)
      requires Valid() && i < clientCount
      modifies this`clientCount, clients
      ensures Valid() && clientCount == old(clientCount) - 1
      ensures clients[..clientCount] == Without(old(clients[..clientCount]), i)
    {
      ghost var before := clients[..clientCount];
      var j := i;
      while j < clientCount - 1
        invariant clientCount == |before| && i <= j <= clientCount - 1
        invariant forall k :: 0 <= k < i ==> clients[k] == before[k]
        invariant forall k :: j <= k < clientCount ==> clients[k] == before[k]
        invariant forall k :: i <= k < j ==> clients[k] == before[k + 1]
      {
        clients[j] := clients[j + 1];
        j := j + 1;
      }
      clientCount := clientCount - 1;
      ShiftedIs(before, clients[..clientCount], i);
    }

    /** Lines 294-318. */
    method RemoveClient(fd: int)
      requires Valid()
      modifies this, clients
      ensures Valid() && Value() == Remove(net, old(Value()), fd)
      decreases clientCount, 0
    {
      ghost var before := Value();
      var i := 0;
      while i < clientCount
        invariant 0 <= i <= clientCount && Valid() && Value() == before
        invariant i <= FirstIndex(before.table, fd)
      {
        if clients[i].fd == fd {
          assert before.table[i].fd == fd;
          RemoveFound(net, before, fd, i);
          var nickname := clients[i].nickname;
          log := log + [Closed(fd)];
          ShiftOut(i);
          BroadcastMessage(LeaveMessage(nickname), NOBODY);
          return;
        }
        assert before.table[i].fd != fd;
        i := i + 1;
      }
    }

    /** A turn of the loop, lines 322-327, with the index for the next one. */
    method SendTo(message: Message, sender: int, i: int) returns (next: int)
      requires Valid() && 0 <= i < clientCount
      modifies this, clients
      ensures Valid() && clientCount <= old(clientCount) && 0 <= next
      ensures clientCount - next < old(clientCount) - i
      ensures Broadcast(net, Value(), message, sender, next) == Broadcast(net, old(Value()), message, sender, i)
      decreases clientCount, 1
    {
      var fd := clients[i].fd;
      ghost var before := Value();
      assert before.table[i].fd == fd;
      BroadcastStep(net, before, message, sender, i);
      next := i;
      if fd != sender {
        var failed := SendAll(fd, message);
        if failed {
          assert Value() == State(before.table, before.log + [Failed(fd, message)], before.attempts + 1);
          RemoveClient(fd);
          next := next - 1;
        } else {
          assert Value() == State(before.table, before.log + [Sent(fd, message)], before.attempts + 1);
        }
      }
      next := next + 1;
    }

    /** Lines 320-329. */
    method BroadcastMessage(message: Message, sender: int)
      requires Valid()
      modifies this, clients
      ensures Valid() && Value() == Broadcast(net, old(Value()), message, sender, 0)
      decreases clientCount, 2
    {
      ghost var all := Broadcast(net, Value(), message, sender, 0);
      var i := 0;
      while i < clientCount
        invariant Valid() && 0 <= i && clientCount <= old(clientCount)
        invariant Broadcast(net, Value(), message, sender, i) == all
        decreases clientCount - i
      {
        i := SendTo(message, sender, i);
      }
    }

    /** Lines 273-292. */
    method AddClient(fd: int, nickname: string)
      requires Valid()
      modifies this, clients
      ensures Valid() && Value() == Joined(net, old(Value()), fd, nickname)
    {
      if clientCount >= MAX_CLIENTS {
        log := log + [Closed(fd)];
        return;
      }
      clients[clientCount] := Client(fd, SafeCopy(nickname, MAX_NICKNAME));
      clientCount := clientCount + 1;
      assert clients[..clientCount] == old(clients[..clientCount]) + [Client(fd, SafeCopy(nickname, MAX_NICKNAME))];
      BroadcastMessage(JoinMessage(nickname), fd);
    }
  }
}
