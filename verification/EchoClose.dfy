/** Joining and leaving the echo server (module3/cross1/server.c, lines 137-166), with the ports,
    the number of slots and the letters of CLOSE written out. */
module EchoClose {
  import opened Options
  import opened Text
  import opened EchoServer
  import opened EchoNumbering

  /** A datagram from a client to the server. */
  predicate ToServer(p: Datagram) {
    p.source.port != 51000 && p.destination == 51000
  }

  predicate SaysClose(data: string) {
    |data| >= 5 && data[0] == 'C' && data[1] == 'L' && data[2] == 'O' && data[3] == 'S' && data[4] == 'E'
  }

  lemma {:induction false} CloseIs(p: Datagram)
    ensures IsClose(p) <==> SaysClose(p.data)
  {
    if |p.data| >= 5 {
      var front := p.data[..5];
      assert front[0] == p.data[0] && front[1] == p.data[1] && front[2] == p.data[2];
      assert front[3] == p.data[3] && front[4] == p.data[4];
      if SaysClose(p.data) {
        assert front == ['C', 'L', 'O', 'S', 'E'];
      }
    }
  }

  /** A datagram that is not from a client, or not to the server, changes nothing and gets no reply. */
  lemma {:induction false} NotForUs(slots: seq<Slot>, p: Datagram)
    requires !ToServer(p)
    ensures Serve(slots, p) == (slots, None)
  {
  }

  /** What a datagram to the server does to the clients it knows. */
  lemma {:induction false} ClientsAfter(slots: seq<Slot>, p: Datagram)
    requires |slots| == 100 && Unique(slots) && ToServer(p)
    ensures var t, after := Table(slots), Table(Serve(slots, p).0);
            after.Keys == if SaysClose(p.data) then t.Keys - {p.source}
                          else if p.source in t || |t| < 100 then t.Keys + {p.source}
                          else t.Keys
    ensures SaysClose(p.data) ==> Serve(slots, p).1.None? && Table(Serve(slots, p).0) == Table(slots) - {p.source}
    ensures !SaysClose(p.data) ==> (Serve(slots, p).1.Some? <==> p.source in Table(slots) || |Table(slots)| < 100)
  {
    CloseIs(p);
    ServeRefines(slots, p);
  }

  /** A client loses its slot, and gets no answer, if and only if its payload starts with the five
      letters; nobody else ever loses one. */
  lemma {:induction false} ClosesExactlyWhen(slots: seq<Slot>, p: Datagram, a: Address)
    requires |slots| == 100 && Unique(slots) && ToServer(p) && a in Table(slots)
    ensures a !in Table(Serve(slots, p).0) <==> a == p.source && SaysClose(p.data)
    ensures a == p.source ==> (Serve(slots, p).1.None? <==> SaysClose(p.data))
  {
    ClientsAfter(slots, p);
  }

  // ---------- over runs ----------

  /** Behind packet `k` none is answered to `a`. */
  ghost predicate Unanswered(packets: seq<Packet>, replies: seq<Option<Reply>>, a: Address, k: nat)
    requires |packets| == |replies|
  {
    forall i :: k < i < |packets| && packets[i].source == a ==> replies[i].None?
  }

  lemma {:induction false} StillNone(packets: seq<Packet>, replies: seq<Option<Reply>>, a: Address, k: nat)
    requires k < |packets| == |replies| && packets[k].source == a
    requires ToServer(packets[k]) && SaysClose(packets[k].data) && Unanswered(packets, replies, a, k)
    ensures Answered(packets, replies, a) == 0
    decreases |packets|
  {
    var n := |packets| - 1;
    if k == n {
      CloseIs(packets[n]);
    } else {
      StillNone(packets[..n], replies[..n], a, k);
    }
  }

  /** Over every run, the first message that is answered to a client after its CLOSE has the number
      1, and the text of the message, a space and that number. */
  lemma {:induction false} FirstAfterClose(packets: seq<Packet>, k: nat, p: Packet)
    requires k < |packets| && packets[k].source == p.source
    requires ToServer(packets[k]) && SaysClose(packets[k].data) && ToServer(p) && !SaysClose(p.data)
    requires |ServeAll(packets).replies| == |packets|
    requires Unanswered(packets, ServeAll(packets).replies, p.source, k)
    ensures var reply := Serve(ServeAll(packets).slots, p).1;
            reply.Some? ==> reply.value == Reply(p.source, 1, CString(p.data) + " 1")
  {
    CloseIs(p);
    StillNone(packets, ServeAll(packets).replies, p.source, k);
    ReplyNumbers(packets, p);
    NumberReadBack(p, 1);
    assert FormatInt(1) == "1";
  }
}
