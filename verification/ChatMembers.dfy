/** Who is in the chat (module3/07/server.c): what a JOIN, a LEAVE and the end of a connection do to
    the table and to the others, what a request is answered, and who is listed after a run. */
module ChatMembers {
  import opened ChatMessages
  import opened ChatTable
  import opened ChatDelivery
  import opened ChatServer
  import opened Sequences
  import FT = FileTransfer

  // ---------- the texts ----------

  /** `safe_strcpy`: the longest prefix that leaves room for the NUL. */
  lemma {:induction false} SafeCopyIs(s: string, size: nat)
    requires size > 0
    ensures SafeCopy(s, size) <= s && |SafeCopy(s, size)| == if |s| < size then |s| else size - 1
  {
  }

  ghost function LeftText(nickname: string): Message {
    Message(MsgLeave, if |nickname| < 50 then nickname else nickname[..49], "[" + nickname + "] left the chat",
            [], 0, "")
  }

  ghost function JoinedText(nickname: string): Message {
    Message(MsgJoin, if |nickname| < 50 then nickname else nickname[..49], "[" + nickname + "] joined the chat",
            [], 0, "")
  }

  lemma {:induction false} TextsAre(nickname: string)
    ensures LeaveMessage(nickname) == LeftText(nickname) && JoinMessage(nickname) == JoinedText(nickname)
  {
  }

  /** One notice for each dead client of the table, in the table's order. */
  ghost predicate NoticesFor(notices: seq<Message>, table: seq<Client>, dead: set<int>) {
    if table == [] then notices == []
    else if table[0].fd in dead
    then notices != [] && notices[0] == LeftText(table[0].nickname) && NoticesFor(notices[1..], table[1..], dead)
    else NoticesFor(notices, table[1..], dead)
  }

  lemma {:induction false} NoticesAre(table: seq<Client>, dead: set<int>)
    ensures NoticesFor(Notices(table, dead), table, dead)
  {
    if table != [] {
      NoticesAre(table[1..], dead);
      if table[0].fd in dead {
        TextsAre(table[0].nickname);
        assert Notices(table, dead)[1..] == Notices(table[1..], dead);
      }
    }
  }

  /** The live clients of a table, in its order. */
  ghost predicate LiveOf(live: seq<Client>, table: seq<Client>, dead: set<int>) {
    if table == [] then live == []
    else if table[0].fd in dead then LiveOf(live, table[1..], dead)
    else live != [] && live[0] == table[0] && LiveOf(live[1..], table[1..], dead)
  }

  lemma {:induction false} LiveIs(table: seq<Client>, dead: set<int>)
    ensures LiveOf(Live(table, dead), table, dead)
  {
    if table != [] {
      LiveIs(table[1..], dead);
      if table[0].fd !in dead {
        assert Live(table, dead)[1..] == Live(table[1..], dead);
      }
    }
  }

  // ---------- a broadcast by a live client or nobody ----------

  /** What a broadcast brings to everybody, with all notices spelled out. */
  ghost predicate Announced(table: seq<Client>, dead: set<int>, m: Message, sender: int, news: seq<Event>) {
    exists notices: seq<Message> ::
      && NoticesFor(notices, table, dead)
      && (forall p :: 0 <= p < |table| && table[p].fd !in dead ==>
            multiset(Received(news, table[p].fd)) ==
            multiset(if table[p].fd == sender then notices else [m] + notices))
      && (forall fd :: fd in dead || !Listed(table, fd) ==> Received(news, fd) == [])
  }

  /** Besides, the table keeps the live clients in their order, and the dead ones are closed once
      each. `log` is what was logged before. */
  ghost predicate Spread(table: seq<Client>, dead: set<int>, m: Message, sender: int, log: seq<Event>, t: State) {
    && log <= t.log && LiveOf(t.table, table, dead) && ClosedFds(t.log[|log|..]) == Fds(Dead(table, dead))
    && Announced(table, dead, m, sender, t.log[|log|..])
  }

  lemma {:induction false} NewsIs(table: seq<Client>, dead: set<int>, m: Message, sender: int, news: seq<Event>)
    requires forall p :: 0 <= p < |table| && table[p].fd !in dead ==>
               multiset(Received(news, table[p].fd)) ==
               (if table[p].fd == sender then multiset{} else multiset{m}) + multiset(Notices(table, dead))
    requires forall fd :: fd in dead || !Listed(table, fd) ==> Received(news, fd) == []
    ensures Announced(table, dead, m, sender, news)
  {
    var notices := Notices(table, dead);
    NoticesAre(table, dead);
    OneMore(m, notices);
    forall p | 0 <= p < |table| && table[p].fd !in dead
      ensures multiset(Received(news, table[p].fd)) ==
              multiset(if table[p].fd == sender then notices else [m] + notices)
    {
    }
  }

  lemma {:induction false} Announces(net: Network, dead: set<int>, s: State, m: Message, sender: int)
    requires DeadAre(net, dead) && DistinctFds(s.table) && NobodyListed(s.table)
    requires sender !in dead && NOBODY !in dead
    ensures Spread(s.table, dead, m, sender, s.log, Broadcast(net, s, m, sender, 0))
  {
    BroadcastDelivers(net, dead, s, m, sender);
    LiveIs(s.table, dead);
    NewsIs(s.table, dead, m, sender, Broadcast(net, s, m, sender, 0).log[|s.log|..]);
  }

  /** A chat or file message from a live client is spread to the others. */
  lemma {:induction false} Relayed(net: Network, disk: FT.Disk, dead: set<int>, s: Chat, fd: int, m: Message)
    requires DeadAre(net, dead) && DistinctFds(s.clients.table) && NobodyListed(s.clients.table)
    requires fd !in dead && NOBODY !in dead && (m.kind.MsgChat? || FileKind(m.kind))
    ensures Spread(s.clients.table, dead, m, fd, s.clients.log, Dispatch(net, disk, s, fd, Whole(m)).clients)
  {
    DispatchRelays(net, disk, s, fd, m);
    Announces(net, dead, s.clients, m, fd);
  }

  lemma {:induction false} DispatchRelays(net: Network, disk: FT.Disk, s: Chat, fd: int, m: Message)
    requires m.kind.MsgChat? || FileKind(m.kind)
    ensures Dispatch(net, disk, s, fd, Whole(m)).clients == Broadcast(net, s.clients, m, fd, 0)
  {
  }

  // ---------- joining ----------

  /** A JOIN of a live newcomer that finds room: the table holds the live clients in their order and
      then the newcomer, and each of the others is told of it once. */
  lemma {:induction false} Newcomer(net: Network, disk: FT.Disk, dead: set<int>, s: Chat, fd: int, m: Message)
    requires DeadAre(net, dead) && DistinctFds(s.clients.table) && NobodyListed(s.clients.table) && NOBODY !in dead
    requires |s.clients.table| < 100 && fd != NOBODY && fd !in dead && !Listed(s.clients.table, fd) && m.kind.MsgJoin?
    ensures var t := Dispatch(net, disk, s, fd, Whole(m));
            var c := Client(fd, if |m.nickname| < 50 then m.nickname else m.nickname[..49]);
            && t.files == s.files && t.clients.table != [] && t.clients.table[|t.clients.table| - 1] == c
            && Spread(s.clients.table + [c], dead, JoinedText(m.nickname), fd, s.clients.log, t.clients)
  {
    var c := Client(fd, SafeCopy(m.nickname, MAX_NICKNAME));
    var u := State(s.clients.table + [c], s.clients.log, s.clients.attempts);
    AppendDistinct(s.clients.table, c);
    TextsAre(m.nickname);
    DispatchJoins(net, disk, s, fd, m, u);
    Announces(net, dead, u, JoinedText(m.nickname), fd);
    LiveLast(Broadcast(net, u, JoinedText(m.nickname), fd, 0).table, s.clients.table, c, dead);
  }

  lemma {:induction false} DispatchJoins(net: Network, disk: FT.Disk, s: Chat, fd: int, m: Message, u: State)
    requires |s.clients.table| < 100 && m.kind.MsgJoin?
    requires u == State(s.clients.table + [Client(fd, SafeCopy(m.nickname, MAX_NICKNAME))], s.clients.log,
                        s.clients.attempts)
    ensures Dispatch(net, disk, s, fd, Whole(m)) == s.(clients := Broadcast(net, u, JoinMessage(m.nickname), fd, 0))
  {
  }

  lemma {:induction false} LiveLast(live: seq<Client>, table: seq<Client>, c: Client, dead: set<int>)
    requires LiveOf(live, table + [c], dead) && c.fd !in dead
    ensures live != [] && live[|live| - 1] == c
    decreases |table|
  {
    if table == [] {
      assert [] + [c] == [c] && [c][1..] == [];
    } else {
      assert (table + [c])[1..] == table[1..] + [c];
      if table[0].fd in dead {
        LiveLast(live, table[1..], c, dead);
      } else {
        LiveLast(live[1..], table[1..], c, dead);
      }
    }
  }

  /** A JOIN that finds 100 clients listed is turned away: its connection is closed, and nobody is
      told anything. */
  lemma {:induction false} TurnedAway(net: Network, disk: FT.Disk, s: Chat, fd: int, m: Message)
    requires |s.clients.table| >= 100 && m.kind.MsgJoin?
    ensures var t := Dispatch(net, disk, s, fd, Whole(m));
            t.files == s.files && t.clients.table == s.clients.table && t.clients.log == s.clients.log + [Closed(fd)]
  {
  }

  // ---------- leaving ----------

  /** The end of a connection, or a LEAVE. */
  predicate Departs(input: Input) {
    input.Gone? || (input.Whole? && input.message.kind.MsgLeave?)
  }

  /** The departure of a listed client: it is unlisted, closed exactly once and gets nothing more,
      the other live clients stay in their order, and each of them is told of it once. */
  lemma {:induction false} Departure(net: Network, disk: FT.Disk, dead: set<int>, s: Chat, fd: int, input: Input,
                                     k: nat)
    requires DeadAre(net, dead) && DistinctFds(s.clients.table) && NobodyListed(s.clients.table) && NOBODY !in dead
    requires k < |s.clients.table| && s.clients.table[k].fd == fd && Departs(input)
    ensures s.clients.log <= Dispatch(net, disk, s, fd, input).clients.log
    ensures var table, t := s.clients.table, Dispatch(net, disk, s, fd, input);
            var rest, news := table[..k] + table[k + 1..], t.clients.log[|s.clients.log|..];
            && t.files == s.files && !Listed(t.clients.table, fd)
            && multiset(ClosedFds(news))[fd] == 1 && news[0] == Closed(fd)
            && Spread(rest, dead, LeftText(table[k].nickname), NOBODY, s.clients.log + [Closed(fd)], t.clients)
  {
    var table := s.clients.table;
    var rest := table[..k] + table[k + 1..];
    var u := State(rest, s.clients.log + [Closed(fd)], s.clients.attempts);
    DispatchRemoves(net, disk, s, fd, input, k, u);
    DistinctWithout(table, k);
    TextsAre(table[k].nickname);
    Announces(net, dead, u, LeftText(table[k].nickname), NOBODY);
    var t := Broadcast(net, u, LeftText(table[k].nickname), NOBODY, 0);
    NotAmong(table, k, fd);
    BehindClose(s.clients.log, u.log, t.log, fd);
    ClosedOnce(rest, dead, fd);
    LiveAmong(t.table, rest, dead, fd);
  }

  lemma {:induction false} DispatchRemoves(net: Network, disk: FT.Disk, s: Chat, fd: int, input: Input, k: nat,
                                           u: State)
    requires DistinctFds(s.clients.table) && k < |s.clients.table| && s.clients.table[k].fd == fd && Departs(input)
    requires u == State(s.clients.table[..k] + s.clients.table[k + 1..], s.clients.log + [Closed(fd)],
                        s.clients.attempts)
    ensures Dispatch(net, disk, s, fd, input) ==
            s.(clients := Broadcast(net, u, LeaveMessage(s.clients.table[k].nickname), NOBODY, 0))
  {
    assert FirstIndex(s.clients.table, fd) == k;
  }

  lemma {:induction false} LiveAmong(live: seq<Client>, table: seq<Client>, dead: set<int>, fd: int)
    requires LiveOf(live, table, dead) && !Listed(table, fd)
    ensures !Listed(live, fd)
    decreases |table|
  {
    if table != [] {
      assert table[0].fd != fd;
      assert table == [table[0]] + table[1..];
      ListedSplit(table[0], table[1..], fd);
      if table[0].fd in dead {
        LiveAmong(live, table[1..], dead, fd);
      } else {
        LiveAmong(live[1..], table[1..], dead, fd);
        assert live == [live[0]] + live[1..];
        ListedSplit(live[0], live[1..], fd);
      }
    }
  }

  lemma {:induction false} NotAmong(table: seq<Client>, k: nat, fd: int)
    requires DistinctFds(table) && k < |table| && table[k].fd == fd
    ensures !Listed(table[..k] + table[k + 1..], fd)
  {
    var rest := table[..k] + table[k + 1..];
    forall i | 0 <= i < |rest|
      ensures rest[i].fd != fd
    {
      assert rest[i] == table[if i < k then i else i + 1];
    }
  }

  lemma {:induction false} BehindClose(a: seq<Event>, b: seq<Event>, c: seq<Event>, fd: int)
    requires b == a + [Closed(fd)] && b <= c
    ensures a <= c && c[|a|..] == [Closed(fd)] + c[|b|..]
    ensures ClosedFds(c[|a|..]) == [fd] + ClosedFds(c[|b|..])
  {
    assert c[|a|..] == [Closed(fd)] + c[|b|..];
    assert ([Closed(fd)] + c[|b|..])[1..] == c[|b|..];
  }

  lemma {:induction false} ClosedOnce(rest: seq<Client>, dead: set<int>, fd: int)
    requires !Listed(rest, fd)
    ensures multiset([fd] + Fds(Dead(rest, dead)))[fd] == 1
  {
    NotInDead(rest, dead, fd);
    assert fd !in Fds(Dead(rest, dead));
    assert multiset([fd] + Fds(Dead(rest, dead))) == multiset{fd} + multiset(Fds(Dead(rest, dead)));
  }

  lemma {:induction false} NotInDead(table: seq<Client>, dead: set<int>, fd: int)
    requires !Listed(table, fd)
    ensures forall i :: 0 <= i < |Dead(table, dead)| ==> Dead(table, dead)[i].fd != fd
  {
    if table != [] {
      assert table[0].fd != fd;
      assert table == [table[0]] + table[1..];
      ListedSplit(table[0], table[1..], fd);
      NotInDead(table[1..], dead, fd);
      var rest := Dead(table[1..], dead);
      assert Dead(table, dead) == rest || Dead(table, dead) == [table[0]] + rest;
    }
  }

  /** The departure of somebody who is not listed changes nothing. */
  lemma {:induction false} DepartureUnlisted(net: Network, disk: FT.Disk, s: Chat, fd: int, input: Input)
    requires !Listed(s.clients.table, fd) && Departs(input)
    ensures Dispatch(net, disk, s, fd, input) == s
  {
    assert FirstIndex(s.clients.table, fd) == |s.clients.table|;
  }

  // ---------- requests and other inputs ----------

  /** Nobody but the one who asked receives anything, and nothing at all if sending to it fails. */
  ghost predicate OnlyTo(s: State, t: State, fd: int, messages: seq<Message>) {
    && s.log <= t.log && t.table == s.table && ClosedFds(t.log[|s.log|..]) == []
    && forall to :: Received(t.log[|s.log|..], to) == if to == fd then messages else []
  }

  lemma {:induction false} SendEachOnlyTo(net: Network, dead: set<int>, s: State, fd: int, messages: seq<Message>)
    requires DeadAre(net, dead)
    ensures OnlyTo(s, SendEach(net, s, fd, messages), fd, if fd in dead then [] else messages)
    decreases |messages|
  {
    var r := SendEach(net, s, fd, messages);
    if messages == [] {
      assert r.log[|s.log|..] == [];
    } else {
      var e := if net(s.attempts, fd) then Failed(fd, messages[0]) else Sent(fd, messages[0]);
      var t := State(s.table, s.log + [e], s.attempts + 1);
      SendEachOnlyTo(net, dead, t, fd, messages[1..]);
      assert r.log[|s.log|..] == [e] + r.log[|t.log|..];
      assert ([e] + r.log[|t.log|..])[1..] == r.log[|t.log|..];
      assert messages == [messages[0]] + messages[1..];
    }
  }

  /** What a request is answered: a listing, or the header, the chunks and the end of a stored file;
      nothing for a file that is not stored. */
  lemma {:induction false} Answered(net: Network, disk: FT.Disk, dead: set<int>, s: Chat, fd: int, m: Message)
    requires DeadAre(net, dead) && (m.kind.MsgFileList? || m.kind.MsgFileGet?)
    ensures var t := Dispatch(net, disk, s, fd, Whole(m));
            t.files == s.files &&
            OnlyTo(s.clients, t.clients, fd,
                   if fd in dead then []
                   else if m.kind.MsgFileList? then [Message(MsgFileInfo, "", "", [], 0, "")]
                   else if m.filename in s.files.storage
                   then FT.Transmission("SERVER", m.filename, s.files.storage[m.filename])
                   else [])
  {
    if m.kind.MsgFileList? {
      SendEachOnlyTo(net, dead, s.clients, fd, [FILE_LIST]);
    } else if m.filename in s.files.storage {
      SendEachOnlyTo(net, dead, s.clients, fd,
                     FT.Transmission("SERVER", m.filename, s.files.storage[m.filename]));
    } else {
      assert s.clients.log[|s.clients.log|..] == [];
    }
  }

  /** Part of a message, or one of unknown kind, changes nothing; and no input but the three kinds
      of file messages touches the stored files. */
  lemma {:induction false} WithoutEffect(net: Network, disk: FT.Disk, s: Chat, fd: int, input: Input)
    ensures input.Partial? || (input.Whole? && input.message.kind.MsgFileInfo?) ==>
              Dispatch(net, disk, s, fd, input) == s
    ensures !(input.Whole? && FileKind(input.message.kind)) ==> Dispatch(net, disk, s, fd, input).files == s.files
  {
    if input.Whole? {
      match input.message.kind
      case MsgJoin =>
      case MsgLeave =>
      case MsgChat =>
      case MsgFile =>
      case MsgFileData =>
      case MsgFileEnd =>
      case MsgFileList =>
      case MsgFileGet =>
      case MsgFileInfo =>
    }
  }

  // ---------- who is listed after a run ----------

  predicate Joins(input: Input) {
    input.Whole? && input.message.kind.MsgJoin?
  }

  /** A client that takes no part in the run has no JOIN, LEAVE or end of connection in it. */
  predicate NoMoves(inputs: seq<(int, Input)>, fd: int) {
    forall i :: 0 <= i < |inputs| && inputs[i].0 == fd ==> !Joins(inputs[i].1) && !Departs(inputs[i].1)
  }

  lemma {:induction false} BroadcastListed(net: Network, dead: set<int>, s: State, m: Message, sender: int, fd: int)
    requires DeadAre(net, dead) && NobodyListed(s.table) && fd !in dead
    ensures Listed(Broadcast(net, s, m, sender, 0).table, fd) <==> Listed(s.table, fd)
  {
    BroadcastIsCascade(net, dead, s, m, sender);
    LiveListed(s.table, dead, fd);
  }

  lemma {:induction false} WithoutListed(table: seq<Client>, k: nat, fd: int)
    requires k < |table| && table[k].fd != fd
    ensures Listed(Without(table, k), fd) <==> Listed(table, fd)
  {
    if Listed(table, fd) {
      var p :| 0 <= p < |table| && table[p].fd == fd;
      assert Without(table, k)[if p < k then p else p - 1] == table[p];
    }
    PartsListed(table, k, fd);
  }

  lemma {:induction false} RemoveListed(net: Network, dead: set<int>, s: State, f: int, fd: int)
    requires DeadAre(net, dead) && NobodyListed(s.table) && fd !in dead && f != fd
    ensures Listed(Remove(net, s, f).table, fd) <==> Listed(s.table, fd)
  {
    var k := FirstIndex(s.table, f);
    if k < |s.table| {
      WithoutListed(s.table, k, fd);
      DistinctWithout(s.table, k);
      var t := State(Without(s.table, k), s.log + [Closed(f)], s.attempts);
      BroadcastListed(net, dead, t, LeaveMessage(s.table[k].nickname), NOBODY, fd);
    }
  }

  lemma {:induction false} JoinListed(net: Network, dead: set<int>, s: State, f: int, nickname: string, fd: int)
    requires DeadAre(net, dead) && NobodyListed(s.table) && fd !in dead && f != NOBODY
    ensures Listed(Joined(net, s, f, nickname).table, fd) <==> Listed(s.table, fd) || (f == fd && |s.table| < 100)
  {
    if |s.table| < MAX_CLIENTS {
      var c := Client(f, SafeCopy(nickname, MAX_NICKNAME));
      var t := State(s.table + [c], s.log, s.attempts);
      BroadcastListed(net, dead, t, JoinMessage(nickname), f, fd);
      if Listed(s.table, fd) {
        var p :| 0 <= p < |s.table| && s.table[p].fd == fd;
        assert t.table[p].fd == fd;
      }
      assert t.table[|s.table|].fd == f;
    }
  }

  lemma {:induction false} StepListed(net: Network, disk: FT.Disk, dead: set<int>, s: Chat, f: int, input: Input,
                                      fd: int)
    requires DeadAre(net, dead) && DistinctFds(s.clients.table) && NobodyListed(s.clients.table)
    requires NOBODY !in dead && fd !in dead && FreshJoin(s, f, input)
    ensures Listed(Dispatch(net, disk, s, f, input).clients.table, fd) <==>
            if f == fd && Departs(input) then false
            else if f == fd && Joins(input) then |s.clients.table| < 100
            else Listed(s.clients.table, fd)
  {
    if Departs(input) {
      if f != fd {
        RemoveListed(net, dead, s.clients, f, fd);
      } else if Listed(s.clients.table, fd) {
        var k :| 0 <= k < |s.clients.table| && s.clients.table[k].fd == fd;
        Departure(net, disk, dead, s, fd, input, k);
      } else {
        DepartureUnlisted(net, disk, s, fd, input);
      }
    } else if Joins(input) {
      JoinListed(net, dead, s.clients, f, input.message.nickname, fd);
    } else if input.Whole? {
      OthersListed(net, disk, dead, s, f, input.message, fd);
    }
  }

  lemma {:induction false} OthersListed(net: Network, disk: FT.Disk, dead: set<int>, s: Chat, f: int, m: Message,
                                        fd: int)
    requires DeadAre(net, dead) && NobodyListed(s.clients.table) && fd !in dead
    requires !m.kind.MsgJoin? && !m.kind.MsgLeave?
    ensures Listed(Dispatch(net, disk, s, f, Whole(m)).clients.table, fd) <==> Listed(s.clients.table, fd)
  {
    if m.kind.MsgFileList? || m.kind.MsgFileGet? {
      Answered(net, disk, dead, s, f, m);
    } else if !m.kind.MsgFileInfo? {
      BroadcastListed(net, dead, s.clients, m, f, fd);
    }
  }

  /** A run in which a live client neither joins nor leaves leaves it listed, or not, as it was. */
  lemma {:induction false} ListedAsBefore(net: Network, disk: FT.Disk, dead: set<int>, s: Chat,
                                          inputs: seq<(int, Input)>, fd: int)
    requires DeadAre(net, dead) && DistinctFds(s.clients.table) && NobodyListed(s.clients.table)
    requires NOBODY !in dead && fd !in dead && FreshJoins(net, disk, s, inputs) && NoMoves(inputs, fd)
    ensures Listed(Run(net, disk, s, inputs).clients.table, fd) <==> Listed(s.clients.table, fd)
    decreases |inputs|
  {
    if inputs != [] {
      var (f, input) := inputs[0];
      StepListed(net, disk, dead, s, f, input, fd);
      DispatchDistinct(net, disk, s, f, input);
      ListedAsBefore(net, disk, dead, Dispatch(net, disk, s, f, input), inputs[1..], fd);
    }
  }

  /** Over every run a live client is listed at the end if and only if the last of its JOIN, LEAVE
      and end-of-connection inputs is a JOIN that found fewer than 100 clients listed. */
  lemma {:induction false} ListedAtEnd(net: Network, disk: FT.Disk, dead: set<int>, s: Chat,
                                       inputs: seq<(int, Input)>, fd: int, last: nat)
    requires DeadAre(net, dead) && DistinctFds(s.clients.table) && NobodyListed(s.clients.table)
    requires NOBODY !in dead && fd !in dead && FreshJoins(net, disk, s, inputs)
    requires last < |inputs| && inputs[last].0 == fd && (Joins(inputs[last].1) || Departs(inputs[last].1))
    requires NoMoves(inputs[last + 1..], fd)
    ensures Listed(Run(net, disk, s, inputs).clients.table, fd) <==>
            Joins(inputs[last].1) && |Run(net, disk, s, inputs[..last]).clients.table| < 100
    decreases |inputs|
  {
    var (f, input) := inputs[0];
    var t := Dispatch(net, disk, s, f, input);
    DispatchDistinct(net, disk, s, f, input);
    if last == 0 {
      StepListed(net, disk, dead, s, f, input, fd);
      ListedAsBefore(net, disk, dead, t, inputs[1..], fd);
    } else {
      assert inputs[1..][last..] == inputs[last + 1..];
      ListedAtEnd(net, disk, dead, t, inputs[1..], fd, last - 1);
      assert inputs[..last][1..] == inputs[1..][..last - 1];
    }
  }
}
