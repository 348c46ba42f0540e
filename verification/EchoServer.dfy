/** The numbering of replies in the UDP echo server (module3/cross1/server.c): a fixed array of
    client slots that has to behave like a table from addresses to counters. */
module EchoServer {
  import opened Options
  import opened Text

  const PORT := 51000
  const MAX_CLIENTS := 100
  const BUFFER_SIZE := 1024
  const HEADERS_SIZE := 28

  /** `sin_addr` and `sin_port`. */
  datatype Address = Address(ip: int, port: int)

  datatype Slot = Slot(address: Address, counter: int, active: bool)

  /** What the socket delivers; `data` is the payload. */
  datatype Datagram = Datagram(source: Address, destination: int, data: string)

  datatype Reply = Reply(to: Address, number: int, text: string)

  /** Lines 137-143. */
  predicate ForUs(p: Datagram) {
    p.source.port != PORT && p.destination == PORT
  }

  /** Line 150. */
  predicate IsClose(p: Datagram) {
    |p.data| >= 5 && p.data[..5] == "CLOSE"
  }

  /** The buffer of line 82 holds an IP header, a UDP header and the payload, and behind the payload
      the zeros of line 119: a message to be echoed has to leave room for one of them, or have a
      NUL itself. */
  predicate Terminated(data: string) {
    |data| < BUFFER_SIZE - HEADERS_SIZE || '\0' in data
  }

  type Packet = p: Datagram | |p.data| <= BUFFER_SIZE - HEADERS_SIZE
                              && (ForUs(p) && !IsClose(p) ==> Terminated(p.data))
    witness Datagram(Address(0, 0), 0, "")

  /** Line 165: `snprintf` into the reply buffer. */
  function ReplyText(data: string, number: int): (text: string)
    ensures |text| < BUFFER_SIZE
  {
    var whole := CString(data) + " " + FormatInt(number);
    if |whole| < BUFFER_SIZE then whole else whole[..BUFFER_SIZE - 1]
  }

  // ---------- the slot array ----------

  predicate Matches(slot: Slot, a: Address) {
    slot.active && slot.address == a
  }

  /** The first slot of an active client, or the length. */
  function Known(slots: seq<Slot>, a: Address): (i: nat)
    ensures i <= |slots| && (i < |slots| ==> Matches(slots[i], a))
    ensures forall j :: 0 <= j < i ==> !Matches(slots[j], a)
  {
    if slots == [] || Matches(slots[0], a) then 0 else Known(slots[1..], a) + 1
  }

  /** The first free slot, or the length. */
  function Free(slots: seq<Slot>): (i: nat)
    ensures i <= |slots| && (i < |slots| ==> !slots[i].active)
    ensures forall j :: 0 <= j < i ==> slots[j].active
  {
    if slots == [] || !slots[0].active then 0 else Free(slots[1..]) + 1
  }

  /** `find_client`: the slot it returns, or the length for NULL, and the array it leaves. */
  function FindClient(slots: seq<Slot>, a: Address): (seq<Slot>, nat) {
    if Known(slots, a) < |slots| then (slots, Known(slots, a))
    else if Free(slots) < |slots| then (slots[Free(slots) := Slot(a, 1, true)], Free(slots))
    else (slots, |slots|)
  }

  /** `remove_client`. */
  function RemoveClient(slots: seq<Slot>, a: Address): seq<Slot> {
    var i := Known(slots, a);
    if i < |slots| then slots[i := slots[i].(active := false, counter := 0)] else slots
  }

  /** A turn of the main loop. */
  function Serve(slots: seq<Slot>, p: Datagram): (seq<Slot>, Option<Reply>) {
    if !ForUs(p) then (slots, None)
    else if IsClose(p) then (RemoveClient(slots, p.source), None)
    else
      var (slots', i) := FindClient(slots, p.source);
      if i >= |slots'| then (slots', None)
      else
        var n := slots'[i].counter;
        (slots'[i := slots'[i].(counter := n + 1)], Some(Reply(p.source, n, ReplyText(p.data, n))))
  }

  class Server {
    const slots: array<Slot>

    ghost predicate Valid()
      reads this
    {
      slots.Length == MAX_CLIENTS
    }

    constructor ()
      ensures Valid() && fresh(slots)
      ensures forall i :: 0 <= i < slots.Length ==> !slots[i].active
    {
      slots := new Slot[MAX_CLIENTS](i => Slot(Address(0, 0), 0, false));
    }

    /** Lines 14-32. */
    method FindOrAdd(a: Address) returns (found: nat)
      requires Valid()
      modifies slots
      ensures (slots[..], found) == FindClient(old(slots[..]), a)
    {
      var i := 0;
      while i < slots.Length
        invariant 0 <= i <= slots.Length && slots[..] == old(slots[..])
        invariant i <= Known(slots[..], a)
      {
        if slots[i].active && slots[i].address == a {
          return i;
        }
        i := i + 1;
      }
      i := 0;
      while i < slots.Length
        invariant 0 <= i <= slots.Length && slots[..] == old(slots[..])
        invariant Known(slots[..], a) == slots.Length && i <= Free(slots[..])
      {
        if !slots[i].active {
          slots[i] := Slot(a, 1, true);
          return i;
        }
        i := i + 1;
      }
      return slots.Length;
    }

    /** Lines 34-46. */
    method Remove(a: Address)
      requires Valid()
      modifies slots
      ensures slots[..] == RemoveClient(old(slots[..]), a)
    {
      var i := 0;
      while i < slots.Length
        invariant 0 <= i <= slots.Length && slots[..] == old(slots[..])
        invariant i <= Known(slots[..], a)
      {
        if slots[i].active && slots[i].address == a {
          slots[i] := slots[i].(active := false, counter := 0);
          return;
        }
        i := i + 1;
      }
    }

    /** Lines 137-166, with the reply that lines 168-184 send. */
    method Receive(p: Packet) returns (reply: Option<Reply>)
      requires Valid()
      modifies slots
      ensures (slots[..], reply) == Serve(old(slots[..]), p)
    {
      reply := None;
      if p.source.port == PORT || p.destination != PORT {
        return;
      }
      if |p.data| >= 5 && p.data[..5] == "CLOSE" {
        Remove(p.source);
        return;
      }
      var i := FindOrAdd(p.source);
      if i >= slots.Length {
        return;
      }
      var n := slots[i].counter;
      reply := Some(Reply(p.source, n, ReplyText(p.data, n)));
      slots[i] := slots[i].(counter := n + 1);
    }
  }
}
