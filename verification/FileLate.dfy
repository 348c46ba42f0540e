/** A client that gets only the later part of a transmission (module3/07/client.c, lines 121-205), as
    one that joins the chat in the middle of an upload does, and whom the server takes for the sender
    of an upload (module3/07/server.c, lines 114-181). */
module FileLate {
  import opened Bytes
  import opened ChatMessages
  import opened ChatTable
  import opened ChatDelivery
  import opened ChatServer
  import opened FileTransfer
  import opened Options

  /** What is left of a file when its first `k` chunks of 4096 bytes are gone. */
  lemma {:induction false} ChunksDrop(content: seq<Byte>, k: nat)
    requires k < |Chunks(content)|
    ensures 4096 * k < |content| && Chunks(content)[k..] == Chunks(content[4096 * k..])
  {
    if k > 0 {
      var rest := content[4096..];
      assert Chunks(content)[1..] == Chunks(rest);
      ChunksDrop(rest, k - 1);
      assert Chunks(content)[k..] == Chunks(rest)[k - 1..];
      assert content[4096 * k..] == rest[4096 * (k - 1)..];
    }
  }

  /** The rest of a transmission behind the header and `k` chunks. */
  lemma {:induction false} RestOfTransmission(nickname: string, filename: string, content: seq<Byte>, k: nat)
    requires k <= |Chunks(content)|
    ensures |Transmission(nickname, filename, content)| == |Chunks(content)| + 2
    ensures Transmission(nickname, filename, content)[1 + k..] ==
            ChunkMessages(nickname, filename, |content|, Chunks(content)[k..])
            + [FileMessage(MsgFileEnd, nickname, filename, |content|, [])]
  {
    var chunks := ChunkMessages(nickname, filename, |content|, Chunks(content));
    assert chunks[k..] == ChunkMessages(nickname, filename, |content|, Chunks(content)[k..]);
  }

  /** A chunk for a receiver without an open file, or with another one open, opens the file anew. */
  lemma {:induction false} ChunkOpensHere(disk: Disk, r: Receiver, m: Message)
    requires AlwaysOpens(disk) && m.kind.MsgFileData? && |m.filename| < MAX_FILENAME
    requires r.file.None? || r.currentFile != m.filename
    ensures var q := OpenAnew(disk, r, m);
            && Downloading(q, m.filename, [], m.totalSize) && q.folder == r.folder[m.filename := []]
            && Receive(disk, r, m) == Receive(disk, q, m)
  {
  }

  lemma {:induction false} EndBehind(disk: Disk, r: Receiver, messages: seq<Message>, end: Message)
    requires end.kind.MsgFileEnd?
    ensures var q := ReceiveAll(disk, r, messages + [end]);
            q.folder == ReceiveAll(disk, r, messages).folder && q.file.None?
  {
    ReceiveAllJoin(disk, r, messages, [end]);
    assert [end][1..] == [];
    var t := ReceiveAll(disk, r, messages);
    assert ReceiveAll(disk, t, [end]) == ReceiveAll(disk, Receive(disk, t, end), []);
  }

  /** A receiver that misses the header and the first `k` chunks, and is not receiving a file of
      that name, ends up with exactly the bytes behind them; if it misses all chunks, its files stay
      as they were. */
  lemma {:induction false} LateReceiver(disk: Disk, r: Receiver, nickname: string, filename: string,
                                        content: seq<Byte>, k: nat)
    requires AlwaysOpens(disk) && k <= |Chunks(content)|
    requires r.file.None? || r.currentFile != if |filename| < 256 then filename else filename[..255]
    ensures |Transmission(nickname, filename, content)| == |Chunks(content)| + 2
    ensures k < |Chunks(content)| ==> 4096 * k < |content|
    ensures var q := ReceiveAll(disk, r, Transmission(nickname, filename, content)[1 + k..]);
            && q.file.None?
            && q.folder == if k == |Chunks(content)| then r.folder
                           else r.folder[if |filename| < 256 then filename else filename[..255] := content[4096 * k..]]
  {
    RestOfTransmission(nickname, filename, content, k);
    var parts := Chunks(content)[k..];
    var chunks := ChunkMessages(nickname, filename, |content|, parts);
    EndBehind(disk, r, chunks, FileMessage(MsgFileEnd, nickname, filename, |content|, []));
    if parts == [] {
      assert chunks == [];
    } else {
      ChunksDrop(content, k);
      LateChunks(disk, r, nickname, filename, |content|, content[4096 * k..]);
    }
  }

  lemma {:induction false} LateChunks(disk: Disk, r: Receiver, nickname: string, filename: string, total: int,
                                      rest: seq<Byte>)
    requires AlwaysOpens(disk) && rest != [] && |rest| <= total
    requires r.file.None? || r.currentFile != SafeCopy(filename, MAX_FILENAME)
    ensures ReceiveAll(disk, r, ChunkMessages(nickname, filename, total, Chunks(rest))).folder ==
            r.folder[SafeCopy(filename, MAX_FILENAME) := rest]
  {
    ChunksBeforeLast(rest);
    var messages := ChunkMessages(nickname, filename, total, Chunks(rest));
    var q := OpenAnew(disk, r, messages[0]);
    ChunkOpensHere(disk, r, messages[0]);
    assert ReceiveAll(disk, r, messages) == ReceiveAll(disk, q, messages);
    DownloadChunks(disk, q, nickname, filename, total, Chunks(rest), []);
    assert [] + rest == rest;
  }

  /** In the chat: a client that is listed from the middle of an upload on rebuilds the bytes behind
      the chunks it missed. */
  lemma {:induction false} LateJoiner(net: Network, dead: set<int>, s: State, nickname: string, filename: string,
                                      content: seq<Byte>, k: nat, fd: int, to: int, disk: Disk, r: Receiver)
    requires DeadAre(net, dead) && DistinctFds(s.table) && NobodyListed(s.table)
    requires fd !in dead && NOBODY !in dead && to !in dead && to != fd && Listed(s.table, to)
    requires AlwaysOpens(disk) && k < |Chunks(content)|
    requires r.file.None? || r.currentFile != if |filename| < 256 then filename else filename[..255]
    ensures |Transmission(nickname, filename, content)| == |Chunks(content)| + 2 && 4096 * k < |content|
    ensures var t := RelayAll(net, s, Transmission(nickname, filename, content)[1 + k..], fd);
            && s.log <= t.log
            && ReceiveAll(disk, r, Received(t.log[|s.log|..], to)).folder ==
               r.folder[if |filename| < 256 then filename else filename[..255] := content[4096 * k..]]
  {
    RestOfTransmission(nickname, filename, content, k);
    var messages := Transmission(nickname, filename, content)[1 + k..];
    RelayKeepsOrder(net, dead, s, messages, fd, to);
    var t := RelayAll(net, s, messages, fd);
    ReceivesFilesOnly(disk, r, Received(t.log[|s.log|..], to));
    LateReceiver(disk, r, nickname, filename, content, k);
  }

  // ---------- any messages at all ----------

  /** The open file is the one named, and `bytes_received` is its length. */
  ghost predicate Coherent(r: Receiver) {
    r.file.Some? ==>
      r.currentFile == r.file.value && r.file.value in r.folder && r.bytesReceived == |r.folder[r.file.value]|
  }

  ghost function HadOf(r: Receiver, name: string): seq<Byte>
    requires Coherent(r)
  {
    if r.file == Some(name) then r.folder[name] else []
  }

  /** A message of data goes to the end of the file of that name if it is open, and else starts it
      anew; the file is closed when it has reached the size announced. */
  lemma {:induction false} DataArrives(disk: Disk, r: Receiver, m: Message)
    requires AlwaysOpens(disk) && Coherent(r) && Wire(m) && m.kind.MsgFileData?
    ensures var q := Receive(disk, r, m);
            var content := HadOf(r, m.filename) + m.data;
            && q.folder == r.folder[m.filename := content] && Coherent(q)
            && (q.file.Some? ==> q.file.value == m.filename)
            && (q.file.None? <==>
                |content| >= if r.file == Some(m.filename) then r.totalSize else m.totalSize)
  {
    var q := if r.file != Some(m.filename) then OpenAnew(disk, r, m) else r;
    var content := HadOf(r, m.filename) + m.data;
    assert q.folder[m.filename := content] == r.folder[m.filename := content];
  }

  /** A header starts the file anew even if it is open, and takes the data that comes with it. */
  lemma {:induction false} HeaderArrives(disk: Disk, r: Receiver, m: Message)
    requires AlwaysOpens(disk) && Coherent(r) && Wire(m) && m.kind.MsgFile?
    ensures var q := Receive(disk, r, m);
            && q.folder == r.folder[m.filename := m.data] && Coherent(q)
            && q.file == Some(m.filename) && q.totalSize == m.totalSize
  {
    assert [] + m.data == m.data;
    assert r.folder[m.filename := []][m.filename := m.data] == r.folder[m.filename := m.data];
  }

  /** The data that belongs to the file that is open after these messages. */
  ghost function OpenData(disk: Disk, r: Receiver, messages: seq<Message>): seq<Byte> {
    if messages == [] then []
    else
      var front, m := messages[..|messages| - 1], messages[|messages| - 1];
      if m.kind.MsgFile? then m.data
      else if !m.kind.MsgFileData? then OpenData(disk, r, front)
      else if ReceiveAll(disk, r, front).file == Some(m.filename) then OpenData(disk, r, front) + m.data
      else m.data
  }

  /** Whatever messages a client gets that has no file open: its open file holds exactly the data
      that came for it since it was opened. */
  lemma {:induction false} OpenDownloadOverRuns(disk: Disk, r: Receiver, messages: seq<Message>)
    requires AlwaysOpens(disk) && r.file.None? && forall m :: m in messages ==> Wire(m)
    ensures var q := ReceiveAll(disk, r, messages);
            Coherent(q) && (q.file.Some? ==> q.folder[q.file.value] == OpenData(disk, r, messages))
    decreases |messages|
  {
    if messages != [] {
      var front, m := messages[..|messages| - 1], messages[|messages| - 1];
      OpenDownloadOverRuns(disk, r, front);
      assert messages == front + [m] && m in messages;
      ReceiveAllJoin(disk, r, front, [m]);
      var q := ReceiveAll(disk, r, front);
      assert [m][1..] == [];
      assert ReceiveAll(disk, q, [m]) == ReceiveAll(disk, Receive(disk, q, m), []);
      if m.kind.MsgFileData? {
        DataArrives(disk, q, m);
        assert [] + m.data == m.data;
      } else if m.kind.MsgFile? {
        HeaderArrives(disk, q, m);
      }
    }
  }

  // ---------- every message of a transmission ----------

  /** All messages of a transmission carry the nickname, the name and the size of the file; the data
      is in those between the first and the last, 4096 bytes in each but the last of them. */
  lemma {:induction false} TransmissionFields(nickname: string, filename: string, content: seq<Byte>, i: nat)
    requires i < |Transmission(nickname, filename, content)|
    ensures var all := Transmission(nickname, filename, content);
            var m, last := all[i], |all| - 1;
            && m.nickname == (if |nickname| < 50 then nickname else nickname[..49]) && m.text == ""
            && m.filename == (if |filename| < 256 then filename else filename[..255]) && m.totalSize == |content|
            && m.kind == (if i == 0 then MsgFile else if i == last then MsgFileEnd else MsgFileData)
            && (i == 0 || i == last ==> m.data == [])
            && (0 < i < last ==>
                  4096 * (i - 1) < |content| &&
                  m.data == content[4096 * (i - 1)..if 4096 * i < |content| then 4096 * i else |content|])
  {
    RestOfTransmission(nickname, filename, content, 0);
    var last := |Transmission(nickname, filename, content)| - 1;
    if 0 < i < last {
      ChunksDrop(content, i - 1);
      var rest := content[4096 * (i - 1)..];
      assert Chunks(content)[i - 1] == Chunks(content)[i - 1..][0] == Chunks(rest)[0];
      assert Chunks(rest)[0] == if |rest| <= 4096 then rest else rest[..4096];
    }
  }

  // ---------- a disk that cannot be written ----------

  ghost predicate NeverOpens(disk: Disk) {
    forall n: nat, name: string :: !disk(n, name)
  }

  /** When no file can be opened, nothing is stored by a server or a client that has none open. */
  lemma {:induction false} NothingStored(disk: Disk, s: Server, arrivals: seq<(Message, int)>)
    requires NeverOpens(disk) && !s.isReceiving && s.file.None?
    ensures var r := HandleAll(disk, s, arrivals);
            r.storage == s.storage && !r.isReceiving && r.file.None?
    decreases |arrivals|
  {
    if arrivals != [] {
      NothingStored(disk, Handle(disk, s, arrivals[0].0, arrivals[0].1), arrivals[1..]);
    }
  }

  lemma {:induction false} NothingReceived(disk: Disk, r: Receiver, messages: seq<Message>)
    requires NeverOpens(disk) && r.file.None?
    ensures ReceiveAll(disk, r, messages).folder == r.folder && ReceiveAll(disk, r, messages).file.None?
    decreases |messages|
  {
    if messages != [] {
      NothingReceived(disk, Receive(disk, r, messages[0]), messages[1..]);
    }
  }

  // ---------- the server's idea of the sender ----------

  /** Who sent the message that opened the stream that is open now. */
  ghost function Opener(disk: Disk, arrivals: seq<(Message, int)>): int {
    if arrivals == [] then -1
    else
      var n := |arrivals| - 1;
      var before := HandleAll(disk, IDLE_SERVER, arrivals[..n]);
      var after := HandleAll(disk, IDLE_SERVER, arrivals);
      if before.file == after.file then Opener(disk, arrivals[..n]) else arrivals[n].1
  }

  lemma {:induction false} OpenedBy(disk: Disk, s: Server, m: Message, fd: int)
    requires AlwaysOpens(disk) && Consistent(s) && Wire(m)
    ensures var r := Handle(disk, s, m, fd);
            r.file.Some? ==> r.senderFd == (if s.file == r.file then s.senderFd else fd)
                             && r.totalSize == (if s.file == r.file then s.totalSize else m.totalSize)
  {
    match m.kind
    case MsgFile =>
    case MsgFileData =>
    case _ =>
  }

  /** Whatever file messages arrive from whomever: `sender_fd` is the descriptor of the message that
      opened the stream. */
  lemma {:induction false} SenderOverRuns(disk: Disk, arrivals: seq<(Message, int)>)
    requires AlwaysOpens(disk) && forall a :: a in arrivals ==> Wire(a.0)
    ensures var s := HandleAll(disk, IDLE_SERVER, arrivals);
            s.file.Some? ==> s.senderFd == Opener(disk, arrivals)
  {
    if arrivals != [] {
      var n := |arrivals| - 1;
      SenderOverRuns(disk, arrivals[..n]);
      OpenFileOverRuns(disk, arrivals[..n]);
      assert arrivals[n] in arrivals && arrivals == arrivals[..n] + [arrivals[n]];
      HandleAllJoin(disk, IDLE_SERVER, arrivals[..n], [arrivals[n]]);
      OpenedBy(disk, HandleAll(disk, IDLE_SERVER, arrivals[..n]), arrivals[n].0, arrivals[n].1);
    }
  }
}
