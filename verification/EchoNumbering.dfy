/** The slot array of the echo server is a bounded table, and the number in a reply counts the
    client's own messages (module3/cross1/server.c). */
module EchoNumbering {
  import opened Options
  import opened Text
  import opened EchoServer

  // ---------- the array as a table ----------

  /** At most one slot is active for an address. */
  ghost predicate Unique(slots: seq<Slot>) {
    forall i, j :: 0 <= i < j < |slots| && slots[i].active && slots[j].active ==> slots[i].address != slots[j].address
  }

  ghost function Clients(slots: seq<Slot>): set<Address> {
    set i | 0 <= i < |slots| && slots[i].active :: slots[i].address
  }

  ghost function Table(slots: seq<Slot>): map<Address, int> {
    map a | a in Clients(slots) && Known(slots, a) < |slots| :: slots[Known(slots, a)].counter
  }

  lemma {:induction false} KnownIs(slots: seq<Slot>, i: nat)
    requires Unique(slots) && i < |slots| && slots[i].active
    ensures Known(slots, slots[i].address) == i
  {
    assert Matches(slots[i], slots[i].address);
  }

  lemma {:induction false} TableAt(slots: seq<Slot>, a: Address)
    ensures a in Table(slots) <==> Known(slots, a) < |slots|
    ensures a in Table(slots) ==> Table(slots)[a] == slots[Known(slots, a)].counter
  {
    if Known(slots, a) < |slots| {
      assert a in Clients(slots);
    }
  }

  /** A table that maps exactly the active addresses to their counters is the array's table. */
  lemma {:induction false} TableIs(slots: seq<Slot>, t: map<Address, int>)
    requires Unique(slots)
    requires forall i :: 0 <= i < |slots| && slots[i].active ==>
               slots[i].address in t && t[slots[i].address] == slots[i].counter
    requires forall a :: a in t ==> Known(slots, a) < |slots|
    ensures Table(slots) == t
  {
    forall a
      ensures a in Table(slots) <==> a in t
      ensures a in Table(slots) ==> Table(slots)[a] == t[a]
    {
      TableAt(slots, a);
      if Known(slots, a) < |slots| {
        assert slots[Known(slots, a)].active;
      }
    }
  }

  // ---------- a full array ----------

  ghost function Active(slots: seq<Slot>): nat {
    if slots == [] then 0 else Active(slots[..|slots| - 1]) + if slots[|slots| - 1].active then 1 else 0
  }

  lemma {:induction false} ClientsFront(slots: seq<Slot>, a: Address)
    requires slots != []
    ensures var last := slots[|slots| - 1];
            a in Clients(slots) <==> a in Clients(slots[..|slots| - 1]) || (last.active && a == last.address)
  {
    var front := slots[..|slots| - 1];
    if a in Clients(slots) {
      var i :| 0 <= i < |slots| && slots[i].active && slots[i].address == a;
      assert i < |front| ==> front[i] == slots[i];
    }
    if a in Clients(front) {
      var i :| 0 <= i < |front| && front[i].active && front[i].address == a;
      assert slots[i] == front[i];
    }
  }

  lemma {:induction false} LastIsNew(slots: seq<Slot>)
    requires slots != [] && Unique(slots) && slots[|slots| - 1].active
    ensures slots[|slots| - 1].address !in Clients(slots[..|slots| - 1])
  {
  }

  lemma {:induction false} ClientsSize(slots: seq<Slot>)
    requires Unique(slots)
    ensures |Clients(slots)| == Active(slots)
  {
    if slots != [] {
      var front, last := slots[..|slots| - 1], slots[|slots| - 1];
      ClientsSize(front);
      forall a
        ensures a in Clients(slots) <==> a in Clients(front) || (last.active && a == last.address)
      {
        ClientsFront(slots, a);
      }
      if last.active {
        LastIsNew(slots);
        assert Clients(slots) == Clients(front) + {last.address};
      } else {
        assert Clients(slots) == Clients(front);
      }
    }
  }

  lemma {:induction false} ActiveAll(slots: seq<Slot>)
    ensures Active(slots) <= |slots|
    ensures Active(slots) == |slots| <==> forall i :: 0 <= i < |slots| ==> slots[i].active
  {
    if slots != [] {
      var n := |slots| - 1;
      ActiveAll(slots[..n]);
      assert forall i :: 0 <= i < n ==> slots[..n][i] == slots[i];
    }
  }

  /** There is a free slot exactly when the table holds fewer clients than there are slots. */
  lemma {:induction false} FreeExactlyWhen(slots: seq<Slot>)
    requires Unique(slots)
    ensures Free(slots) < |slots| <==> |Table(slots)| < |slots|
  {
    ClientsSize(slots);
    ActiveAll(slots);
    forall a | a in Clients(slots)
      ensures a in Table(slots)
    {
      var i :| 0 <= i < |slots| && slots[i].active && slots[i].address == a;
      KnownIs(slots, i);
      TableAt(slots, a);
    }
    assert Table(slots).Keys == Clients(slots);
  }

  // ---------- refinement ----------

  /** What a packet does to a table with room for `MAX_CLIENTS` addresses. */
  function TableServe(t: map<Address, int>, p: Datagram): (map<Address, int>, Option<int>) {
    var a := p.source;
    if !ForUs(p) then (t, None)
    else if IsClose(p) then (t - {a}, None)
    else if a in t then (t[a := t[a] + 1], Some(t[a]))
    else if |t| < MAX_CLIENTS then (t[a := 2], Some(1))
    else (t, None)
  }

  function NumberIn(reply: Option<Reply>): Option<int> {
    if reply.Some? then Some(reply.value.number) else None
  }

  lemma {:induction false} SetCounter(slots: seq<Slot>, i: nat, a: Address, n: int)
    requires Unique(slots) && i < |slots| && (Known(slots, a) == i || (Known(slots, a) == |slots| && !slots[i].active))
    ensures Unique(slots[i := Slot(a, n, true)])
    ensures Table(slots[i := Slot(a, n, true)]) == Table(slots)[a := n]
  {
    var after := slots[i := Slot(a, n, true)];
    forall j, k | 0 <= j < k < |after| && after[j].active && after[k].active
      ensures after[j].address != after[k].address
    {
      OthersDiffer(slots, i, a, j);
      OthersDiffer(slots, i, a, k);
    }
    forall j | 0 <= j < |after| && after[j].active
      ensures after[j].address in Table(slots)[a := n] && Table(slots)[a := n][after[j].address] == after[j].counter
    {
      OthersDiffer(slots, i, a, j);
      if j != i {
        KnownIs(slots, j);
        TableAt(slots, slots[j].address);
      }
    }
    forall b | b in Table(slots)[a := n]
      ensures Known(after, b) < |after|
    {
      TableAt(slots, b);
      if b == a {
        assert Matches(after[i], b);
      } else {
        assert Matches(after[Known(slots, b)], b);
      }
    }
    TableIs(after, Table(slots)[a := n]);
  }

  /** No other slot is active for the address. */
  lemma {:induction false} OthersDiffer(slots: seq<Slot>, i: nat, a: Address, j: nat)
    requires Unique(slots) && i < |slots| && (Known(slots, a) == i || (Known(slots, a) == |slots| && !slots[i].active))
    requires j < |slots|
    ensures j != i && slots[j].active ==> slots[j].address != a
  {
    if slots[j].active && slots[j].address == a {
      KnownIs(slots, j);
    }
  }

  lemma {:induction false} DropUnique(slots: seq<Slot>, a: Address)
    requires Unique(slots)
    ensures Unique(RemoveClient(slots, a))
    ensures forall j :: 0 <= j < |slots| && RemoveClient(slots, a)[j].active ==>
              RemoveClient(slots, a)[j] == slots[j] && slots[j].address != a
  {
    forall j | 0 <= j < |slots| && RemoveClient(slots, a)[j].active
      ensures slots[j].address != a
    {
      KnownIs(slots, j);
    }
  }

  lemma {:induction false} RemoveIsDrop(slots: seq<Slot>, a: Address)
    requires Unique(slots)
    ensures Unique(RemoveClient(slots, a)) && Table(RemoveClient(slots, a)) == Table(slots) - {a}
  {
    var after := RemoveClient(slots, a);
    DropUnique(slots, a);
    forall j | 0 <= j < |after| && after[j].active
      ensures after[j].address in Table(slots) - {a} && (Table(slots) - {a})[after[j].address] == after[j].counter
    {
      KnownIs(slots, j);
      TableAt(slots, slots[j].address);
    }
    forall b | b in Table(slots) - {a}
      ensures Known(after, b) < |after|
    {
      TableAt(slots, b);
      assert Matches(after[Known(slots, b)], b);
    }
    TableIs(after, Table(slots) - {a});
  }

  /** The slot array serves every packet as the bounded table does, and keeps one slot for each
      address. */
  lemma {:induction false} ServeRefines(slots: seq<Slot>, p: Datagram)
    requires |slots| == MAX_CLIENTS && Unique(slots)
    ensures |Serve(slots, p).0| == MAX_CLIENTS && Unique(Serve(slots, p).0)
    ensures (Table(Serve(slots, p).0), NumberIn(Serve(slots, p).1)) == TableServe(Table(slots), p)
  {
    var a := p.source;
    TableAt(slots, a);
    if !ForUs(p) {
    } else if IsClose(p) {
      RemoveIsDrop(slots, a);
    } else if Known(slots, a) < |slots| {
      SetCounter(slots, Known(slots, a), a, slots[Known(slots, a)].counter + 1);
    } else {
      FreeExactlyWhen(slots);
      if Free(slots) < |slots| {
        SetCounter(slots, Free(slots), a, 2);
        assert slots[Free(slots) := Slot(a, 1, true)][Free(slots) := Slot(a, 2, true)]
            == slots[Free(slots) := Slot(a, 2, true)];
      }
    }
  }

  // ---------- runs ----------

  function NoClients(): seq<Slot> {
    seq(MAX_CLIENTS, i => Slot(Address(0, 0), 0, false))
  }

  /** The array and the replies so far, one entry for each packet. */
  datatype Trace = Trace(slots: seq<Slot>, replies: seq<Option<Reply>>)

  /** Serving the packets from the start. */
  function ServeAll(packets: seq<Packet>): Trace {
    if packets == [] then Trace(NoClients(), [])
    else
      var before := ServeAll(packets[..|packets| - 1]);
      var turn := Serve(before.slots, packets[|packets| - 1]);
      Trace(turn.0, before.replies + [turn.1])
  }

  /** How a packet, answered or not, changes the number of messages answered for a client. */
  function Count(before: nat, p: Datagram, answered: bool, a: Address): nat {
    if !ForUs(p) || p.source != a then before
    else if IsClose(p) then 0
    else if answered then before + 1
    else before
  }

  /** The client's messages that were answered since its last CLOSE, or since the start. */
  ghost function Answered(packets: seq<Packet>, replies: seq<Option<Reply>>, a: Address): nat
    requires |packets| == |replies|
  {
    if packets == [] then 0
    else Count(Answered(packets[..|packets| - 1], replies[..|packets| - 1], a), packets[|packets| - 1],
               replies[|packets| - 1].Some?, a)
  }

  /** A table entry is one more than the count of answered messages; no entry means none. */
  ghost predicate Counted(t: map<Address, int>, count: nat, a: Address) {
    (a in t <==> count > 0) && (a in t ==> t[a] == count + 1)
  }

  lemma {:induction false} NoClientsIsEmpty()
    ensures Unique(NoClients()) && Table(NoClients()) == map[]
  {
    TableIs(NoClients(), map[]);
  }

  lemma {:induction false} ServeCounts(t: map<Address, int>, count: nat, p: Datagram, a: Address)
    requires Counted(t, count, a)
    ensures Counted(TableServe(t, p).0, Count(count, p, TableServe(t, p).1.Some?, a), a)
    ensures p.source == a && TableServe(t, p).1.Some? ==> TableServe(t, p).1.value == count + 1
  {
  }

  ghost predicate Numbered(packets: seq<Packet>, s: Trace, a: Address) {
    && |s.slots| == MAX_CLIENTS && |s.replies| == |packets| && Unique(s.slots)
    && Counted(Table(s.slots), Answered(packets, s.replies, a), a)
  }

  lemma {:induction false} RunCounts(packets: seq<Packet>, a: Address)
    ensures Numbered(packets, ServeAll(packets), a)
    decreases |packets|
  {
    if packets == [] {
      NoClientsIsEmpty();
    } else {
      var n := |packets| - 1;
      var before := ServeAll(packets[..n]);
      RunCounts(packets[..n], a);
      ServeRefines(before.slots, packets[n]);
      ServeCounts(Table(before.slots), Answered(packets[..n], before.replies, a), packets[n], a);
      assert ServeAll(packets).replies[..n] == before.replies;
    }
  }

  // ---------- the numbers in the replies ----------

  /** The clients with an answered message since their last CLOSE. */
  ghost function Live(packets: seq<Packet>, replies: seq<Option<Reply>>): set<Address>
    requires |packets| == |replies|
  {
    set i | 0 <= i < |packets| && Answered(packets, replies, packets[i].source) > 0 :: packets[i].source
  }

  lemma {:induction false} AnsweredSent(packets: seq<Packet>, replies: seq<Option<Reply>>, a: Address)
    requires |packets| == |replies| && Answered(packets, replies, a) > 0
    ensures exists i :: 0 <= i < |packets| && packets[i].source == a
  {
    var n := |packets| - 1;
    if packets[n].source != a {
      AnsweredSent(packets[..n], replies[..n], a);
      var i :| 0 <= i < n && packets[..n][i].source == a;
      assert packets[i].source == a;
    }
  }

  lemma {:induction false} LiveIsTable(packets: seq<Packet>)
    ensures |ServeAll(packets).replies| == |packets|
    ensures Live(packets, ServeAll(packets).replies) == Table(ServeAll(packets).slots).Keys
  {
    var s := ServeAll(packets);
    RunCounts(packets, Address(0, 0));
    forall a
      ensures a in Live(packets, s.replies) <==> a in Table(s.slots)
    {
      RunCounts(packets, a);
      if Answered(packets, s.replies, a) > 0 {
        AnsweredSent(packets, s.replies, a);
      }
    }
  }

  lemma {:induction false} AnswerIs(t: map<Address, int>, count: nat, p: Datagram)
    requires ForUs(p) && !IsClose(p) && Counted(t, count, p.source)
    ensures TableServe(t, p).1 == if count > 0 || |t| < MAX_CLIENTS then Some(count + 1) else None
  {
  }

  lemma {:induction false} ReplyIs(slots: seq<Slot>, p: Datagram)
    requires Serve(slots, p).1.Some?
    ensures var reply := Serve(slots, p).1.value;
            reply == Reply(p.source, reply.number, ReplyText(p.data, reply.number))
  {
  }

  /** After any run, a message is answered exactly when its client is live or fewer than 100
      clients are, and the number in the reply is the count of the client's answered messages
      since its last CLOSE, this one included. */
  lemma {:induction false} ReplyNumbers(packets: seq<Packet>, p: Packet)
    requires ForUs(p) && !IsClose(p)
    ensures |ServeAll(packets).replies| == |packets|
    ensures var s := ServeAll(packets);
            var count := Answered(packets, s.replies, p.source);
            var reply := Serve(s.slots, p).1;
            && (reply.Some? <==> count > 0 || |Live(packets, s.replies)| < MAX_CLIENTS)
            && (reply.Some? ==> reply.value == Reply(p.source, count + 1, ReplyText(p.data, count + 1)))
  {
    var s := ServeAll(packets);
    RunCounts(packets, p.source);
    LiveIsTable(packets);
    ServeRefines(s.slots, p);
    AnswerIs(Table(s.slots), Answered(packets, s.replies, p.source), p);
    assert |Table(s.slots)| == |Table(s.slots).Keys|;
    if Serve(s.slots, p).1.Some? {
      ReplyIs(s.slots, p);
    }
  }

  // ---------- other clients ----------

  /** The packets of one client with the replies they got. */
  ghost function Own(packets: seq<Packet>, replies: seq<Option<Reply>>, a: Address)
      : (own: (seq<Packet>, seq<Option<Reply>>))
    requires |packets| == |replies|
    ensures |own.0| == |own.1|
  {
    if packets == [] then ([], [])
    else
      var n := |packets| - 1;
      var front := Own(packets[..n], replies[..n], a);
      if packets[n].source == a then (front.0 + [packets[n]], front.1 + [replies[n]]) else front
  }

  lemma {:induction false} OwnCount(packets: seq<Packet>, replies: seq<Option<Reply>>, a: Address)
    requires |packets| == |replies|
    ensures var own := Own(packets, replies, a); Answered(packets, replies, a) == Answered(own.0, own.1, a)
  {
    if packets != [] {
      var n := |packets| - 1;
      OwnCount(packets[..n], replies[..n], a);
      if packets[n].source == a {
        var front, own := Own(packets[..n], replies[..n], a), Own(packets, replies, a);
        assert own.0[..|own.0| - 1] == front.0 && own.1[..|own.0| - 1] == front.1;
      }
    }
  }

  lemma {:induction false} OwnAreOwn(packets: seq<Packet>, replies: seq<Option<Reply>>, a: Address)
    requires |packets| == |replies|
    ensures forall i :: 0 <= i < |Own(packets, replies, a).0| ==> Own(packets, replies, a).0[i].source == a
  {
    if packets != [] {
      OwnAreOwn(packets[..|packets| - 1], replies[..|packets| - 1], a);
    }
  }

  predicate IsMessage(p: Datagram) {
    ForUs(p) && !IsClose(p)
  }

  /** A client alone with the server is always answered. */
  lemma {:induction false} AloneIsAnswered(packets: seq<Packet>, p: Packet)
    requires IsMessage(p) && forall i :: 0 <= i < |packets| ==> packets[i].source == p.source
    ensures |ServeAll(packets).replies| == |packets|
    ensures var s := ServeAll(packets);
            var number := Answered(packets, s.replies, p.source) + 1;
            Serve(s.slots, p).1 == Some(Reply(p.source, number, ReplyText(p.data, number)))
  {
    ReplyNumbers(packets, p);
    var live := Live(packets, ServeAll(packets).replies);
    assert live <= {p.source};
    SubsetOfOne(live, p.source);
  }

  lemma {:induction false} SubsetOfOne(s: set<Address>, a: Address)
    requires s <= {a}
    ensures |s| <= 1
  {
    if s != {} {
      assert s == {a};
    }
  }

  /** No message of the client was turned away by a full table. */
  ghost predicate NeverRefused(packets: seq<Packet>, replies: seq<Option<Reply>>, a: Address)
    requires |packets| == |replies|
  {
    forall i :: 0 <= i < |packets| && packets[i].source == a && IsMessage(packets[i]) ==> replies[i].Some?
  }

  /** After the same replies, the next packet gets the same reply alone as among the others,
      unless it is a message that the full table refuses. */
  lemma {:induction false} NextReply(packets: seq<Packet>, p: Packet)
    ensures |ServeAll(packets).replies| == |packets|
    ensures var s := ServeAll(packets);
            var own := Own(packets, s.replies, p.source);
            ServeAll(own.0).replies == own.1 ==>
              (Serve(ServeAll(own.0).slots, p).1 == Serve(s.slots, p).1
               <==> (IsMessage(p) ==> Serve(s.slots, p).1.Some?))
  {
    RunCounts(packets, p.source);
    var s := ServeAll(packets);
    var own := Own(packets, s.replies, p.source);
    if IsMessage(p) && ServeAll(own.0).replies == own.1 {
      OwnCount(packets, s.replies, p.source);
      OwnAreOwn(packets, s.replies, p.source);
      AloneIsAnswered(own.0, p);
      ReplyNumbers(packets, p);
    }
  }

  /** Over every run a client gets the replies that it would get if it were alone with the server,
      if and only if none of its messages was refused: the joins, messages and closes of the
      others, and the slots they leave and take, make no other difference. */
  lemma {:induction false} AsIfAlone(packets: seq<Packet>, a: Address)
    ensures |ServeAll(packets).replies| == |packets|
    ensures var replies := ServeAll(packets).replies;
            var own := Own(packets, replies, a);
            ServeAll(own.0).replies == own.1 <==> NeverRefused(packets, replies, a)
    decreases |packets|
  {
    RunCounts(packets, a);
    if packets != [] {
      var n := |packets| - 1;
      var front, p := packets[..n], packets[n];
      AsIfAlone(front, a);
      assert ServeAll(packets).replies[..n] == ServeAll(front).replies;
      RefusedSoFar(packets, ServeAll(packets).replies, a);
      if p.source == a {
        NextReply(front, p);
        LastReply(Own(front, ServeAll(front).replies, a).0, p, Own(front, ServeAll(front).replies, a).1,
                  Serve(ServeAll(front).slots, p).1);
      }
    }
  }

  lemma {:induction false} RefusedSoFar(packets: seq<Packet>, replies: seq<Option<Reply>>, a: Address)
    requires |packets| == |replies| && packets != []
    ensures var n := |packets| - 1;
            NeverRefused(packets, replies, a) <==>
            NeverRefused(packets[..n], replies[..n], a) &&
            (packets[n].source == a && IsMessage(packets[n]) ==> replies[n].Some?)
  {
    var n := |packets| - 1;
    if NeverRefused(packets[..n], replies[..n], a) {
      assert forall i :: 0 <= i < n ==> packets[..n][i] == packets[i] && replies[..n][i] == replies[i];
    }
    if NeverRefused(packets, replies, a) {
      assert forall i :: 0 <= i < n ==> packets[..n][i] == packets[i] && replies[..n][i] == replies[i];
    }
  }

  lemma {:induction false} LastReply(packets: seq<Packet>, p: Packet, replies: seq<Option<Reply>>, reply: Option<Reply>)
    requires |packets| == |replies|
    ensures ServeAll(packets + [p]).replies == replies + [reply] <==>
            ServeAll(packets).replies == replies && Serve(ServeAll(packets).slots, p).1 == reply
  {
    assert (packets + [p])[..|packets|] == packets;
    RunCounts(packets, p.source);
    var got := ServeAll(packets).replies;
    var last := Serve(ServeAll(packets).slots, p).1;
    if got + [last] == replies + [reply] {
      assert got == (got + [last])[..|got|] && replies == (replies + [reply])[..|got|];
      assert (got + [last])[|got|] == last && (replies + [reply])[|got|] == reply;
    }
  }

  /** No reply is ever cut short: every message is echoed whole, up to a NUL in it, and the number
      behind it can be read back. */
  lemma {:induction false} NumberReadBack(p: Packet, n: int)
    requires IsMessage(p) && 0 <= n < 0x8000_0000
    ensures |p.data| <= 996 && ReplyText(p.data, n) == CString(p.data) + " " + FormatInt(n)
    ensures Atoi(ReplyText(p.data, n)[|CString(p.data)| + 1..]) == n
  {
    EchoFits(p.data);
    IntLength(n);
    ScanFormatted(n, "");
    assert ReplyText(p.data, n)[|CString(p.data)| + 1..] == FormatInt(n) + "";
  }

  lemma {:induction false} EchoFits(data: string)
    requires |data| <= BUFFER_SIZE - HEADERS_SIZE && Terminated(data)
    ensures |CString(data)| < BUFFER_SIZE - HEADERS_SIZE
  {
    if '\0' in data {
      assert data[..|data|] == data;
      assert IndexOf(data, '\0') < |data|;
    }
  }
}
