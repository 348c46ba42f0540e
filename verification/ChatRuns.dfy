/** What a client hears over a whole run of the chat server (module3/07/server.c): however the
    inputs of all clients interleave, whoever joins, leaves or turns out to be dead meanwhile. */
module ChatRuns {
  import opened ChatDelivery
  import opened ChatMessages
  import opened ChatServer
  import opened ChatTable
  import FT = FileTransfer

  /** The kinds that the server passes on from one client to the others, and sends out of its
      storage; joins, departures and the answer to a listing are none of them. */
  predicate Talk(kind: Kind) {
    kind.MsgChat? || FileKind(kind)
  }

  /** A message with the descriptor it came from; the server's own files come from nobody. */
  type Voice = (int, Message)

  /** `to` is the one client that a broadcast from a dead sender skips. */
  ghost predicate Misses(table: seq<Client>, dead: set<int>, sender: int, to: int) {
    sender in dead && exists p :: 0 <= p < |table| && table[p].fd == to && Skipped(table, dead, sender, p)
  }

  /** What `to` ought to hear of one input. */
  ghost function Heard(dead: set<int>, s: Chat, fd: int, input: Input, to: int): seq<Voice> {
    if !input.Whole? then []
    else
      var m := input.message;
      if Talk(m.kind) then if fd == to || Misses(s.clients.table, dead, fd, to) then [] else [(fd, m)]
      else if m.kind.MsgFileGet? && fd == to && m.filename in s.files.storage then
        Voices(NOBODY, FT.Transmission("SERVER", m.filename, s.files.storage[m.filename]))
      else []
  }

  ghost function Voices(from: int, messages: seq<Message>): (r: seq<Voice>)
    ensures Messages(r) == messages
  {
    if messages == [] then [] else [(from, messages[0])] + Voices(from, messages[1..])
  }

  ghost function Messages(voices: seq<Voice>): seq<Message> {
    if voices == [] then [] else [voices[0].1] + Messages(voices[1..])
  }

  ghost function HeardOver(net: Network, disk: FT.Disk, dead: set<int>, s: Chat, inputs: seq<(int, Input)>, to: int):
      seq<Voice>
    decreases |inputs|
  {
    if inputs == [] then []
    else
      Heard(dead, s, inputs[0].0, inputs[0].1, to) +
      HeardOver(net, disk, dead, Dispatch(net, disk, s, inputs[0].0, inputs[0].1), inputs[1..], to)
  }

  /** The client does not leave, and its connection does not end. */
  predicate Stays(fd: int, input: Input, to: int) {
    fd == to ==> !input.Gone? && !(input.Whole? && input.message.kind.MsgLeave?)
  }

  predicate StaysOver(inputs: seq<(int, Input)>, to: int) {
    forall i :: 0 <= i < |inputs| ==> Stays(inputs[i].0, inputs[i].1, to)
  }

  /** A table in which the live client `to` can be served. */
  ghost predicate Present(net: Network, dead: set<int>, table: seq<Client>, to: int) {
    && DeadAre(net, dead) && NOBODY !in dead && to !in dead
    && DistinctFds(table) && NobodyListed(table) && Listed(table, to)
  }

  lemma {:induction false} MessagesJoin(a: seq<Voice>, b: seq<Voice>)
    ensures Messages(a + b) == Messages(a) + Messages(b)
  {
    if a == [] {
      assert a + b == b;
    } else {
      MessagesJoin(a[1..], b);
      assert (a + b)[1..] == a[1..] + b;
    }
  }

  // ---------- one broadcast ----------

  /** What the talk in the news of a step is. */
  ghost predicate Tells(s: State, t: State, to: int, talk: seq<Message>) {
    s.log <= t.log && Of(Talk, Received(t.log[|s.log|..], to)) == talk && Listed(t.table, to)
  }

  lemma {:induction false} TalkAmongNotices(got: seq<Message>, m: Message, own: bool, notices: seq<Message>)
    requires multiset(got) == (if own then multiset{m} else multiset{}) + multiset(notices)
    requires forall i :: 0 <= i < |notices| ==> notices[i].kind.MsgLeave?
    ensures Of(Talk, got) == if own && Talk(m.kind) then [m] else []
  {
    forall x | x in multiset(notices) ensures !Talk(x.kind) {
      assert x in notices;
    }
    if own && Talk(m.kind) {
      OneOf(Talk, got, m, multiset(notices));
    } else {
      forall i | 0 <= i < |got| ensures !Talk(got[i].kind) {
        assert got[i] in multiset(got);
      }
      NoneOf(Talk, got);
    }
  }

  lemma {:induction false} MissesAt(table: seq<Client>, dead: set<int>, sender: int, p: nat)
    requires DistinctFds(table) && p < |table|
    ensures Misses(table, dead, sender, table[p].fd) <==> sender in dead && Skipped(table, dead, sender, p)
  {
  }

  lemma {:induction false} CascadeTells(table: seq<Client>, dead: set<int>, m: Message, sender: int, to: int)
    requires DistinctFds(table) && NobodyListed(table) && NOBODY !in dead && to !in dead && Listed(table, to)
    ensures Of(Talk, Received(Cascade(table, dead, m, sender), to)) ==
            if Talk(m.kind) && sender != to && !Misses(table, dead, sender, to) then [m] else []
  {
    var p: nat :| p < |table| && table[p].fd == to;
    AnySender(table, dead, m, sender, p);
    MissesAt(table, dead, sender, p);
    TalkAmongNotices(Received(Cascade(table, dead, m, sender), to), m,
                     sender != to && !Misses(table, dead, sender, to), Notified(table, dead, sender));
  }

  lemma {:induction false} BroadcastTells(net: Network, dead: set<int>, s: State, m: Message, sender: int, to: int)
    requires Present(net, dead, s.table, to)
    ensures Tells(s, Broadcast(net, s, m, sender, 0), to,
                  if Talk(m.kind) && sender != to && !Misses(s.table, dead, sender, to) then [m] else [])
  {
    BroadcastIsCascade(net, dead, s, m, sender);
    assert (s.log + Cascade(s.table, dead, m, sender))[|s.log|..] == Cascade(s.table, dead, m, sender);
    CascadeTells(s.table, dead, m, sender, to);
    LiveListed(s.table, dead, to);
  }

  // ---------- the other inputs ----------

  lemma {:induction false} QuietEvent(s: State, table: seq<Client>, e: Event, to: int)
    requires !e.Sent? && Listed(table, to)
    ensures Tells(s, State(table, s.log + [e], s.attempts), to, [])
  {
    assert (s.log + [e])[|s.log|..] == [e];
    assert [e][1..] == [];
    assert Received([e], to) == [];
  }

  lemma {:induction false} TellsJoin(s: State, t: State, r: State, to: int, a: seq<Message>, b: seq<Message>)
    requires Tells(s, t, to, a) && Tells(t, r, to, b)
    ensures Tells(s, r, to, a + b)
  {
    NewsJoin(Talk, s.log, t.log, r.log, to);
  }

  lemma {:induction false} TellsNothing(s: State, to: int)
    requires Listed(s.table, to)
    ensures Tells(s, s, to, [])
  {
    assert s.log[|s.log|..] == [];
  }

  lemma {:induction false} StillListed(table: seq<Client>, k: nat, to: int)
    requires k < |table| && table[k].fd != to && Listed(table, to)
    ensures Listed(Without(table, k), to)
  {
    var p :| 0 <= p < |table| && table[p].fd == to;
    assert Without(table, k)[if p < k then p else p - 1] == table[p];
  }

  lemma {:induction false} RemoveTells(net: Network, dead: set<int>, s: State, fd: int, to: int)
    requires Present(net, dead, s.table, to) && fd != to
    ensures Tells(s, Remove(net, s, fd), to, [])
  {
    var k := FirstIndex(s.table, fd);
    if k == |s.table| {
      TellsNothing(s, to);
    } else {
      var t := State(Without(s.table, k), s.log + [Closed(fd)], s.attempts);
      StillListed(s.table, k, to);
      DistinctWithout(s.table, k);
      QuietEvent(s, t.table, Closed(fd), to);
      BroadcastTells(net, dead, t, LeaveMessage(s.table[k].nickname), NOBODY, to);
      TellsJoin(s, t, Remove(net, s, fd), to, [], []);
    }
  }

  lemma {:induction false} JoinTells(net: Network, dead: set<int>, s: State, fd: int, nickname: string, to: int)
    requires Present(net, dead, s.table, to) && fd != NOBODY && !Listed(s.table, fd)
    ensures Tells(s, Joined(net, s, fd, nickname), to, [])
  {
    if |s.table| >= MAX_CLIENTS {
      QuietEvent(s, s.table, Closed(fd), to);
    } else {
      var c := Client(fd, SafeCopy(nickname, MAX_NICKNAME));
      var t := State(s.table + [c], s.log, s.attempts);
      var p :| 0 <= p < |s.table| && s.table[p].fd == to;
      assert t.table[p].fd == to;
      AppendDistinct(s.table, c);
      BroadcastTells(net, dead, t, JoinMessage(nickname), fd, to);
    }
  }

  lemma {:induction false} SendEachTells(net: Network, dead: set<int>, s: State, fd: int, messages: seq<Message>,
                                         to: int)
    requires Present(net, dead, s.table, to)
    ensures Tells(s, SendEach(net, s, fd, messages), to, if fd == to then Of(Talk, messages) else [])
    decreases |messages|
  {
    if messages == [] {
      TellsNothing(s, to);
    } else {
      var e := if net(s.attempts, fd) then Failed(fd, messages[0]) else Sent(fd, messages[0]);
      var t := State(s.table, s.log + [e], s.attempts + 1);
      assert t.log[|s.log|..] == [e] && [e][1..] == [];
      assert Received([e], to) == if fd == to then [messages[0]] else [];
      assert [messages[0]][1..] == [];
      SendEachTells(net, dead, t, fd, messages[1..], to);
      var rest := if fd == to then Of(Talk, messages[1..]) else [];
      TellsJoin(s, t, SendEach(net, s, fd, messages), to, Of(Talk, Received([e], to)), rest);
    }
  }

  /** A listed client gets a listing, and of the storage exactly the file it asked for. */
  lemma {:induction false} AnswerTells(net: Network, disk: FT.Disk, dead: set<int>, s: Chat, fd: int, m: Message,
                                       to: int)
    requires Present(net, dead, s.clients.table, to) && (m.kind.MsgFileList? || m.kind.MsgFileGet?)
    ensures Tells(s.clients, Dispatch(net, disk, s, fd, Whole(m)).clients, to,
                  Messages(Heard(dead, s, fd, Whole(m), to)))
  {
    if m.kind.MsgFileList? {
      SendEachTells(net, dead, s.clients, fd, [FILE_LIST], to);
      NoneOf(Talk, [FILE_LIST]);
    } else if m.filename in s.files.storage {
      var messages := FT.Transmission("SERVER", m.filename, s.files.storage[m.filename]);
      SendEachTells(net, dead, s.clients, fd, messages, to);
      AllOf(Talk, messages);
    } else {
      TellsNothing(s.clients, to);
    }
  }

  // ---------- one input ----------

  lemma {:induction false} DispatchTells(net: Network, disk: FT.Disk, dead: set<int>, s: Chat, fd: int, input: Input,
                                         to: int)
    requires Present(net, dead, s.clients.table, to) && FreshJoin(s, fd, input) && Stays(fd, input, to)
    ensures Tells(s.clients, Dispatch(net, disk, s, fd, input).clients, to, Messages(Heard(dead, s, fd, input, to)))
  {
    match input
    case Gone => RemoveTells(net, dead, s.clients, fd, to);
    case Partial => TellsNothing(s.clients, to);
    case Whole(m) =>
      if Talk(m.kind) {
        BroadcastTells(net, dead, s.clients, m, fd, to);
        assert [(fd, m)][1..] == [];
      } else if m.kind.MsgJoin? {
        JoinTells(net, dead, s.clients, fd, m.nickname, to);
      } else if m.kind.MsgLeave? {
        RemoveTells(net, dead, s.clients, fd, to);
      } else if m.kind.MsgFileInfo? {
        TellsNothing(s.clients, to);
      } else {
        AnswerTells(net, disk, dead, s, fd, m, to);
      }
  }

  // ---------- whole runs ----------

  /** Over every run in which descriptors join afresh, a live client that stays hears exactly
      this, in this order: what the others broadcast, without its own, and the files it asked
      for. Nothing is lost and nothing comes twice, whoever dies or leaves meanwhile, except what
      a broadcast from a dead sender skips. */
  lemma {:induction false} HearsOverRuns(net: Network, disk: FT.Disk, dead: set<int>, s: Chat,
                                         inputs: seq<(int, Input)>, to: int)
    requires Present(net, dead, s.clients.table, to) && FreshJoins(net, disk, s, inputs) && StaysOver(inputs, to)
    ensures Tells(s.clients, Run(net, disk, s, inputs).clients, to,
                  Messages(HeardOver(net, disk, dead, s, inputs, to)))
    decreases |inputs|
  {
    if inputs == [] {
      TellsNothing(s.clients, to);
    } else {
      var (fd, input) := inputs[0];
      var t := Dispatch(net, disk, s, fd, input);
      DispatchTells(net, disk, dead, s, fd, input, to);
      DispatchDistinct(net, disk, s, fd, input);
      HearsOverRuns(net, disk, dead, t, inputs[1..], to);
      var first, rest := Heard(dead, s, fd, input, to), HeardOver(net, disk, dead, t, inputs[1..], to);
      MessagesJoin(first, rest);
      TellsJoin(s.clients, t.clients, Run(net, disk, s, inputs).clients, to, Messages(first), Messages(rest));
    }
  }

  ghost function By(voices: seq<Voice>, from: int): seq<Message> {
    if voices == [] then []
    else if voices[0].0 == from then [voices[0].1] + By(voices[1..], from)
    else By(voices[1..], from)
  }

  /** What a client broadcasts in the course of the inputs. */
  ghost function Said(inputs: seq<(int, Input)>, from: int): seq<Message> {
    if inputs == [] then []
    else if inputs[0].0 == from && inputs[0].1.Whole? && Talk(inputs[0].1.message.kind)
    then [inputs[0].1.message] + Said(inputs[1..], from)
    else Said(inputs[1..], from)
  }

  lemma {:induction false} ByJoin(a: seq<Voice>, b: seq<Voice>, from: int)
    ensures By(a + b, from) == By(a, from) + By(b, from)
  {
    if a == [] {
      assert a + b == b;
    } else {
      ByJoin(a[1..], b, from);
      assert (a + b)[1..] == a[1..] + b;
    }
  }

  lemma {:induction false} ByAnother(from: int, messages: seq<Message>, other: int)
    requires from != other
    ensures By(Voices(from, messages), other) == []
  {
    if messages != [] {
      ByAnother(from, messages[1..], other);
      assert Voices(from, messages)[1..] == Voices(from, messages[1..]);
    }
  }

  /** Of what a client hears, the part that comes from any one live sender is all that this sender
      broadcast, once each and in the order in which it was sent. */
  lemma {:induction false} EveryLiveVoice(net: Network, disk: FT.Disk, dead: set<int>, s: Chat,
                                          inputs: seq<(int, Input)>, to: int, from: int)
    requires from !in dead && from != to && from != NOBODY
    ensures By(HeardOver(net, disk, dead, s, inputs, to), from) == Said(inputs, from)
    decreases |inputs|
  {
    if inputs != [] {
      var (fd, input) := inputs[0];
      var t := Dispatch(net, disk, s, fd, input);
      EveryLiveVoice(net, disk, dead, t, inputs[1..], to, from);
      var first, rest := Heard(dead, s, fd, input, to), HeardOver(net, disk, dead, t, inputs[1..], to);
      ByJoin(first, rest, from);
      OneVoice(dead, s, fd, input, to, from);
    }
  }

  lemma {:induction false} OneVoice(dead: set<int>, s: Chat, fd: int, input: Input, to: int, from: int)
    requires from !in dead && from != to && from != NOBODY
    ensures By(Heard(dead, s, fd, input, to), from) ==
            if fd == from && input.Whole? && Talk(input.message.kind) then [input.message] else []
  {
    if input.Whole? {
      var m := input.message;
      if Talk(m.kind) {
        assert [(fd, m)][1..] == [];
      } else if m.kind.MsgFileGet? && m.filename in s.files.storage {
        ByAnother(NOBODY, FT.Transmission("SERVER", m.filename, s.files.storage[m.filename]), from);
      }
    }
  }
}
