/** The dispatch of the chat server (`handle_client_message`, module3/07/server.c, lines
    331-399) over the client table and the file receiver, and what the two do together: a file
    that one client uploads is rebuilt by every other live client. */
module ChatServer {
  import opened Bytes
  import opened ChatMessages
  import opened ChatTable
  import opened ChatDelivery
  import opened Sequences
  import FT = FileTransfer

  /** What `recv` delivers: nothing (end or error), part of a message, or a whole one. */
  datatype Input = Gone | Partial | Whole(message: Message)

  datatype Chat = Chat(clients: State, files: FT.Server)

  /** `send_all` to one descriptor, its result ignored. */
  function SendEach(net: Network, s: State, fd: int, messages: seq<Message>): State
    decreases |messages|
  {
    if messages == [] then s
    else
      var e := if net(s.attempts, fd) then Failed(fd, messages[0]) else Sent(fd, messages[0]);
      SendEach(net, State(s.table, s.log + [e], s.attempts + 1), fd, messages[1..])
  }

  const FILE_LIST := Message(MsgFileInfo, "", "", [], 0, "")

  ghost function Dispatch(net: Network, disk: FT.Disk, s: Chat, fd: int, input: Input): Chat {
    match input
    case Gone => s.(clients := Remove(net, s.clients, fd))
    case Partial => s
    case Whole(m) =>
      match m.kind {
        case MsgJoin => s.(clients := Joined(net, s.clients, fd, m.nickname))
        case MsgChat => s.(clients := Broadcast(net, s.clients, m, fd, 0))
        case MsgFile => s.(files := FT.Handle(disk, s.files, m, fd), clients := Broadcast(net, s.clients, m, fd, 0))
        case MsgFileData => s.(files := FT.Handle(disk, s.files, m, fd), clients := Broadcast(net, s.clients, m, fd, 0))
        case MsgFileEnd => s.(files := FT.Handle(disk, s.files, m, fd), clients := Broadcast(net, s.clients, m, fd, 0))
        case MsgLeave => s.(clients := Remove(net, s.clients, fd))
        case MsgFileList => s.(clients := SendEach(net, s.clients, fd, [FILE_LIST]))
        case MsgFileGet =>
          if m.filename in s.files.storage then
            var messages := FT.Transmission("SERVER", m.filename, s.files.storage[m.filename]);
            s.(clients := SendEach(net, s.clients, fd, messages))
          else s
        case MsgFileInfo => s
      }
  }

  // ---------- what the server relays ----------

  /** The messages of the kinds that `keep` selects. */
  ghost function Of(keep: Kind -> bool, messages: seq<Message>): seq<Message> {
    if messages == [] then []
    else if keep(messages[0].kind) then [messages[0]] + Of(keep, messages[1..])
    else Of(keep, messages[1..])
  }

  lemma {:induction false} OfJoin(keep: Kind -> bool, a: seq<Message>, b: seq<Message>)
    ensures Of(keep, a + b) == Of(keep, a) + Of(keep, b)
  {
    if a == [] {
      assert a + b == b;
    } else {
      OfJoin(keep, a[1..], b);
      assert (a + b)[0] == a[0] && (a + b)[1..] == a[1..] + b;
      Associative([a[0]], Of(keep, a[1..]), Of(keep, b));
    }
  }

  lemma {:induction false} NoneOf(keep: Kind -> bool, messages: seq<Message>)
    requires forall i :: 0 <= i < |messages| ==> !keep(messages[i].kind)
    ensures Of(keep, messages) == []
  {
    if messages != [] {
      NoneOf(keep, messages[1..]);
    }
  }

  lemma {:induction false} AllOf(keep: Kind -> bool, messages: seq<Message>)
    requires forall i :: 0 <= i < |messages| ==> keep(messages[i].kind)
    ensures Of(keep, messages) == messages
  {
    if messages != [] {
      AllOf(keep, messages[1..]);
    }
  }

  lemma {:induction false} TakeOut(got: seq<Message>, m: Message, notices: multiset<Message>) returns (i: nat)
    requires multiset(got) == multiset{m} + notices
    ensures i < |got| && got[i] == m && multiset(got[..i] + got[i + 1..]) == notices
  {
    assert m in multiset(got);
    i :| 0 <= i < |got| && got[i] == m;
    assert got == got[..i] + [m] + got[i + 1..];
    assert multiset(got[..i] + got[i + 1..]) == multiset(got) - multiset{m};
  }

  lemma {:induction false} OnlyAt(keep: Kind -> bool, got: seq<Message>, i: nat)
    requires i < |got| && keep(got[i].kind)
    requires Of(keep, got[..i] + got[i + 1..]) == []
    ensures Of(keep, got) == [got[i]]
  {
    var front, back := got[..i], got[i + 1..];
    assert got == front + ([got[i]] + back);
    OfJoin(keep, front, back);
    OfJoin(keep, front, [got[i]] + back);
    assert ([got[i]] + back)[1..] == back;
  }

  /** Among notices the one message that counts is found, wherever it stands. */
  lemma {:induction false} OneOf(keep: Kind -> bool, got: seq<Message>, m: Message, notices: multiset<Message>)
    requires multiset(got) == multiset{m} + notices && keep(m.kind)
    requires forall x :: x in notices ==> !keep(x.kind)
    ensures Of(keep, got) == [m]
  {
    var i := TakeOut(got, m, notices);
    var rest := got[..i] + got[i + 1..];
    forall j | 0 <= j < |rest| ensures !keep(rest[j].kind) {
      assert rest[j] in multiset(rest);
    }
    NoneOf(keep, rest);
    OnlyAt(keep, got, i);
  }

  /** The broadcasts of a sequence of messages from one sender. */
  ghost function RelayAll(net: Network, s: State, messages: seq<Message>, fd: int): State
    decreases |messages|
  {
    if messages == [] then s else RelayAll(net, Broadcast(net, s, messages[0], fd, 0), messages[1..], fd)
  }

  lemma {:induction false} LiveTable(table: seq<Client>, dead: set<int>, fd: int)
    requires DistinctFds(table) && NobodyListed(table) && Listed(table, fd) && fd !in dead
    ensures DistinctFds(Live(table, dead)) && NobodyListed(Live(table, dead)) && Listed(Live(table, dead), fd)
  {
    LiveListed(table, dead, fd);
    LiveIsLive(table, dead);
  }

  lemma {:induction false} RelayOne(net: Network, dead: set<int>, s: State, m: Message, fd: int, to: int)
    requires DeadAre(net, dead) && DistinctFds(s.table) && NobodyListed(s.table)
    requires fd !in dead && NOBODY !in dead && to !in dead && to != fd && Listed(s.table, to)
    requires FileKind(m.kind)
    ensures var t := Broadcast(net, s, m, fd, 0);
            && s.log <= t.log && Of(FileKind, Received(t.log[|s.log|..], to)) == [m]
            && DistinctFds(t.table) && NobodyListed(t.table) && Listed(t.table, to)
  {
    BroadcastDelivers(net, dead, s, m, fd);
    LiveTable(s.table, dead, to);
    var p :| 0 <= p < |s.table| && s.table[p].fd == to;
    var t := Broadcast(net, s, m, fd, 0);
    OneOf(FileKind, Received(t.log[|s.log|..], to), m, multiset(Notices(s.table, dead)));
  }

  /** However many clients die meanwhile, a live client gets the sender's file messages, all of
      them, once each and in order. */
  lemma {:induction false} RelayKeepsOrder(net: Network, dead: set<int>, s: State, messages: seq<Message>, fd: int,
                                           to: int)
    requires DeadAre(net, dead) && DistinctFds(s.table) && NobodyListed(s.table)
    requires fd !in dead && NOBODY !in dead && to !in dead && to != fd && Listed(s.table, to)
    requires forall i :: 0 <= i < |messages| ==> FileKind(messages[i].kind)
    ensures var r := RelayAll(net, s, messages, fd);
            s.log <= r.log && Of(FileKind, Received(r.log[|s.log|..], to)) == messages
    decreases |messages|
  {
    if messages == [] {
      assert s.log[|s.log|..] == [];
    } else {
      var t := Broadcast(net, s, messages[0], fd, 0);
      var r := RelayAll(net, t, messages[1..], fd);
      RelayOne(net, dead, s, messages[0], fd, to);
      RelayKeepsOrder(net, dead, t, messages[1..], fd, to);
      NewsJoin(FileKind, s.log, t.log, r.log, to);
      assert messages == [messages[0]] + messages[1..];
    }
  }

  lemma {:induction false} NewsJoin(keep: Kind -> bool, a: seq<Event>, b: seq<Event>, c: seq<Event>, to: int)
    requires a <= b <= c
    ensures Of(keep, Received(c[|a|..], to)) == Of(keep, Received(b[|a|..], to)) + Of(keep, Received(c[|b|..], to))
  {
    assert c[|a|..] == b[|a|..] + c[|b|..];
    ReceivedJoin(b[|a|..], c[|b|..], to);
    OfJoin(keep, Received(b[|a|..], to), Received(c[|b|..], to));
  }

  /** Messages of other kinds leave the file receiver alone. */
  lemma {:induction false} ReceivesFilesOnly(disk: FT.Disk, r: FT.Receiver, messages: seq<Message>)
    ensures FT.ReceiveAll(disk, r, messages) == FT.ReceiveAll(disk, r, Of(FileKind, messages))
    decreases |messages|
  {
    if messages != [] {
      ReceivesFilesOnly(disk, FT.Receive(disk, r, messages[0]), messages[1..]);
      var rest := Of(FileKind, messages[1..]);
      if FileKind(messages[0].kind) {
        assert ([messages[0]] + rest)[1..] == rest;
      }
    }
  }

  /** While a live client uploads a file, every other live client that takes part rebuilds
      exactly that file, although clients may be dying, their departures are announced in
      between, and the table shrinks. */
  lemma {:induction false} UploadReachesEveryone(net: Network, dead: set<int>, s: State, nickname: string,
                                                 filename: string, content: seq<Byte>, fd: int, to: int,
                                                 disk: FT.Disk, r: FT.Receiver)
    requires DeadAre(net, dead) && DistinctFds(s.table) && NobodyListed(s.table)
    requires fd !in dead && NOBODY !in dead && to !in dead && to != fd && Listed(s.table, to)
    requires FT.AlwaysOpens(disk) && |content| < 0x8000_0000
    ensures var t := RelayAll(net, s, FT.Transmission(nickname, filename, content), fd);
            && s.log <= t.log
            && FT.ReceiveAll(disk, r, Received(t.log[|s.log|..], to)).folder ==
               r.folder[SafeCopy(filename, MAX_FILENAME) := content]
  {
    var messages := FT.Transmission(nickname, filename, content);
    RelayKeepsOrder(net, dead, s, messages, fd, to);
    var t := RelayAll(net, s, messages, fd);
    ReceivesFilesOnly(disk, r, Received(t.log[|s.log|..], to));
    FT.TransmissionIsReceived(disk, r, nickname, filename, content);
  }

  // ---------- whole runs ----------

  ghost function Run(net: Network, disk: FT.Disk, s: Chat, inputs: seq<(int, Input)>): Chat
    decreases |inputs|
  {
    if inputs == [] then s else Run(net, disk, Dispatch(net, disk, s, inputs[0].0, inputs[0].1), inputs[1..])
  }

  /** Handling the messages of an upload is the server storing them and relaying them. */
  lemma {:induction false} RunIsStoreAndRelay(net: Network, disk: FT.Disk, s: Chat, messages: seq<Message>, fd: int)
    requires forall i :: 0 <= i < |messages| ==> FileKind(messages[i].kind)
    ensures Run(net, disk, s, seq(|messages|, i requires 0 <= i < |messages| => (fd, Whole(messages[i])))) ==
            Chat(RelayAll(net, s.clients, messages, fd), FT.HandleAll(disk, s.files, FT.From(messages, fd)))
    decreases |messages|
  {
    var inputs := seq(|messages|, i requires 0 <= i < |messages| => (fd, Whole(messages[i])));
    if messages != [] {
      var rest := messages[1..];
      assert inputs[1..] == seq(|rest|, i requires 0 <= i < |rest| => (fd, Whole(rest[i])));
      assert FT.From(messages, fd)[1..] == FT.From(rest, fd);
      RunIsStoreAndRelay(net, disk, Dispatch(net, disk, s, fd, inputs[0].1), rest, fd);
    }
  }

  // ---------- the descriptors in the table ----------

  lemma {:induction false} FewerStayDistinct(table: seq<Client>, after: seq<Client>)
    requires Subsequence(after, table) && DistinctFds(table) && NobodyListed(table)
    ensures DistinctFds(after) && NobodyListed(after)
  {
    var f :| Embeds(f, after, table);
    forall i, j | 0 <= i < j < |after|
      ensures after[i].fd != after[j].fd
    {
      assert f[i] < f[j];
    }
    forall i | 0 <= i < |after|
      ensures after[i].fd != NOBODY
    {
      assert after[i] == table[f[i]];
    }
  }

  lemma {:induction false} AppendDistinct(table: seq<Client>, c: Client)
    requires DistinctFds(table) && NobodyListed(table)
    ensures DistinctFds(table + [c]) && NobodyListed(table + [c]) <==> !Listed(table, c.fd) && c.fd != NOBODY
  {
    var after := table + [c];
    assert after[|table|] == c;
    if Listed(table, c.fd) {
      var i :| 0 <= i < |table| && table[i].fd == c.fd;
      assert after[i].fd == after[|table|].fd;
    }
  }

  /** A JOIN comes on a descriptor that is not in the table. */
  ghost predicate FreshJoin(s: Chat, fd: int, input: Input) {
    input.Whole? && input.message.kind.MsgJoin? ==> fd != NOBODY && !Listed(s.clients.table, fd)
  }

  ghost predicate FreshJoins(net: Network, disk: FT.Disk, s: Chat, inputs: seq<(int, Input)>)
    decreases |inputs|
  {
    inputs != [] ==>
      && FreshJoin(s, inputs[0].0, inputs[0].1)
      && FreshJoins(net, disk, Dispatch(net, disk, s, inputs[0].0, inputs[0].1), inputs[1..])
  }

  lemma {:induction false} SendEachTable(net: Network, s: State, fd: int, messages: seq<Message>)
    ensures SendEach(net, s, fd, messages).table == s.table
    decreases |messages|
  {
    if messages != [] {
      var e := if net(s.attempts, fd) then Failed(fd, messages[0]) else Sent(fd, messages[0]);
      SendEachTable(net, State(s.table, s.log + [e], s.attempts + 1), fd, messages[1..]);
    }
  }

  lemma {:induction false} JoinDistinct(net: Network, s: State, fd: int, nickname: string)
    requires DistinctFds(s.table) && NobodyListed(s.table) && fd != NOBODY && !Listed(s.table, fd)
    ensures DistinctFds(Joined(net, s, fd, nickname).table) && NobodyListed(Joined(net, s, fd, nickname).table)
  {
    if |s.table| < MAX_CLIENTS {
      var c := Client(fd, SafeCopy(nickname, MAX_NICKNAME));
      var t := State(s.table + [c], s.log, s.attempts);
      AppendDistinct(s.table, c);
      BroadcastShrinks(net, t, JoinMessage(nickname), fd, 0);
      FewerStayDistinct(t.table, Joined(net, s, fd, nickname).table);
    }
  }

  lemma {:induction false} RemoveDistinct(net: Network, s: State, fd: int)
    requires DistinctFds(s.table) && NobodyListed(s.table)
    ensures DistinctFds(Remove(net, s, fd).table) && NobodyListed(Remove(net, s, fd).table)
  {
    RemoveShrinks(net, s, fd);
    FewerStayDistinct(s.table, Remove(net, s, fd).table);
  }

  lemma {:induction false} BroadcastDistinct(net: Network, s: State, m: Message, fd: int)
    requires DistinctFds(s.table) && NobodyListed(s.table)
    ensures DistinctFds(Broadcast(net, s, m, fd, 0).table) && NobodyListed(Broadcast(net, s, m, fd, 0).table)
  {
    BroadcastShrinks(net, s, m, fd, 0);
    FewerStayDistinct(s.table, Broadcast(net, s, m, fd, 0).table);
  }

  lemma {:induction false} DispatchDistinct(net: Network, disk: FT.Disk, s: Chat, fd: int, input: Input)
    requires DistinctFds(s.clients.table) && NobodyListed(s.clients.table) && FreshJoin(s, fd, input)
    ensures var t := Dispatch(net, disk, s, fd, input).clients.table; DistinctFds(t) && NobodyListed(t)
  {
    match input
    case Gone => RemoveDistinct(net, s.clients, fd);
    case Partial =>
    case Whole(m) =>
      match m.kind {
        case MsgJoin => JoinDistinct(net, s.clients, fd, m.nickname);
        case MsgChat => BroadcastDistinct(net, s.clients, m, fd);
        case MsgFile => BroadcastDistinct(net, s.clients, m, fd);
        case MsgFileData => BroadcastDistinct(net, s.clients, m, fd);
        case MsgFileEnd => BroadcastDistinct(net, s.clients, m, fd);
        case MsgLeave => RemoveDistinct(net, s.clients, fd);
        case MsgFileList => SendEachTable(net, s.clients, fd, [FILE_LIST]);
        case MsgFileGet =>
          if m.filename in s.files.storage {
            SendEachTable(net, s.clients, fd, FT.Transmission("SERVER", m.filename, s.files.storage[m.filename]));
          }
        case MsgFileInfo =>
      }
  }

  /** Over every run in which no descriptor joins while it is listed, with any send outcomes, the
      descriptors in the table stay distinct. */
  lemma {:induction false} DistinctOverRuns(net: Network, disk: FT.Disk, s: Chat, inputs: seq<(int, Input)>)
    requires DistinctFds(s.clients.table) && NobodyListed(s.clients.table) && FreshJoins(net, disk, s, inputs)
    ensures var t := Run(net, disk, s, inputs).clients.table; DistinctFds(t) && NobodyListed(t)
    decreases |inputs|
  {
    if inputs != [] {
      DispatchDistinct(net, disk, s, inputs[0].0, inputs[0].1);
      DistinctOverRuns(net, disk, Dispatch(net, disk, s, inputs[0].0, inputs[0].1), inputs[1..]);
    }
  }

  /** `add_client` does not look for the descriptor: while every send succeeds and there is room,
      a JOIN keeps the descriptors distinct exactly when it comes on a new one. */
  lemma {:induction false} JoinDistinctExactlyWhen(net: Network, s: State, fd: int, nickname: string)
    requires DeadAre(net, {}) && DistinctFds(s.table) && NobodyListed(s.table) && fd != NOBODY
    requires |s.table| < MAX_CLIENTS
    ensures DistinctFds(Joined(net, s, fd, nickname).table) <==> !Listed(s.table, fd)
  {
    var c := Client(fd, SafeCopy(nickname, MAX_NICKNAME));
    var t := State(s.table + [c], s.log, s.attempts);
    AppendDistinct(s.table, c);
    assert NobodyListed(t.table);
    BroadcastIsCascade(net, {}, t, JoinMessage(nickname), fd);
    assert FirstDead(t.table, {}, fd) == |t.table|;
  }

  // ---------- the program ----------

  class Program {
    const clients: ClientTable
    const files: FT.FileReceiver

    ghost predicate Valid()
      reads this, clients
    {
      clients.Valid()
    }

    ghost function Value(): Chat
      requires Valid()
      reads this, clients, clients.clients, files
    {
      Chat(clients.Value(), files.Value())
    }

    constructor (net: Network, disk: FT.Disk)
      ensures Valid() && clients.net == net && files.disk == disk
      ensures fresh(clients) && fresh(clients.clients) && fresh(files)
      ensures Value() == Chat(State([], [], 0), FT.IDLE_SERVER)
    {
      clients := new ClientTable(net);
      files := new FT.FileReceiver(disk);
    }

    method SendMessages(fd: int, messages: seq<Message>)
      requires Valid()
      modifies clients
      ensures Valid() && clients.Value() == SendEach(clients.net, old(clients.Value()), fd, messages)
    {
      for i := 0 to |messages|
        invariant Valid()
        invariant SendEach(clients.net, clients.Value(), fd, messages[i..]) ==
                  SendEach(clients.net, old(clients.Value()), fd, messages)
      {
        assert messages[i..][1..] == messages[i + 1..];
        var failed := clients.SendAll(fd, messages[i]);
      }
    }

    /** Lines 331-399. */
    method HandleClientMessage(fd: int, input: Input)
      requires Valid()
      modifies clients, clients.clients, files
      ensures Valid() && Value() == Dispatch(clients.net, files.disk, old(Value()), fd, input)
    {
      match input
      case Gone =>
        clients.RemoveClient(fd);
      case Partial =>
      case Whole(m) =>
        match m.kind {
          case MsgJoin =>
            clients.AddClient(fd, m.nickname);
          case MsgChat =>
            clients.BroadcastMessage(m, fd);
          case MsgFile =>
            files.HandleFileMessage(m, fd);
            clients.BroadcastMessage(m, fd);
          case MsgFileData =>
            files.HandleFileMessage(m, fd);
            clients.BroadcastMessage(m, fd);
          case MsgFileEnd =>
            files.HandleFileMessage(m, fd);
            clients.BroadcastMessage(m, fd);
          case MsgLeave =>
            clients.RemoveClient(fd);
          case MsgFileList =>
            SendMessages(fd, [FILE_LIST]);
          case MsgFileGet =>
            var code, messages := FT.SendFileToClient(files.storage, m.filename);
            SendMessages(fd, messages);
          case MsgFileInfo =>
        }
    }
  }
}
